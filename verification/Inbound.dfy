// The inbound pipeline: a normalized platform message becomes contact, link,
// conversation and message, once per source id.

module Inbound {
  import opened Prelude
  import opened ConversationFields

  datatype Inbox = Inbox(id: int, account: int)
  datatype Contact = Contact(id: int, account: int, name: string, email: Option<string>, phone: Option<string>)
  datatype Link = Link(id: int, inbox: int, contact: Option<int>, source: string)
  datatype Conversation = Conversation(
    id: int, account: int, inbox: int, contact: Option<int>, link: Option<int>, displayId: int,
    status: Status, lastActivity: int, waitingSince: Option<int>)
  datatype Message = Message(
    id: int, account: int, conversation: int, sender: int, content: Option<string>,
    sourceId: Option<string>, attachments: seq<string>)

  datatype Store = Store(
    inboxes: seq<Inbox>, contacts: seq<Contact>, links: seq<Link>,
    conversations: seq<Conversation>, messages: seq<Message>, nextId: int)

  /** A normalized inbound item, with the time at which it is handled. */
  datatype Item = Item(
    sourceId: string, contactSource: string, name: Option<string>, email: Option<string>, phone: Option<string>,
    content: Option<string>, attachments: seq<string>, isStatus: bool, at: int)

  datatype Error = InboxNotFound | ContactConflict | LinkConflict

  datatype Result =
    | Ingested(conversation: int, message: Option<int>, contact: int)
    | Deduplicated(conversation: int, message: Option<int>, contact: int)
    | Failed(error: Error)

  predicate Truthy(s: Option<string>) {
    s.Some? && s.value != ""
  }

  // ---- Lookups ----

  function FirstLink(rows: seq<Link>, inbox: int, source: string): (r: Option<Link>)
    ensures r.Some? ==> r.value in rows && r.value.inbox == inbox && r.value.source == source
    ensures r.None? ==> forall i | 0 <= i < |rows| :: !(rows[i].inbox == inbox && rows[i].source == source)
  {
    if rows == [] then None
    else if rows[0].inbox == inbox && rows[0].source == source then Some(rows[0])
    else FirstLink(rows[1..], inbox, source)
  }

  function FirstLinkBetween(rows: seq<Link>, contact: int, inbox: int): (r: Option<Link>)
    ensures r.Some? ==> r.value in rows && r.value.contact == Some(contact) && r.value.inbox == inbox
    ensures r.None? ==> forall i | 0 <= i < |rows| :: !(rows[i].contact == Some(contact) && rows[i].inbox == inbox)
  {
    if rows == [] then None
    else if rows[0].contact == Some(contact) && rows[0].inbox == inbox then Some(rows[0])
    else FirstLinkBetween(rows[1..], contact, inbox)
  }

  function FirstByEmail(rows: seq<Contact>, account: int, email: string): (r: Option<Contact>)
    ensures r.Some? ==> r.value in rows && r.value.account == account && r.value.email == Some(email)
    ensures r.None? ==> forall i | 0 <= i < |rows| :: !(rows[i].account == account && rows[i].email == Some(email))
  {
    if rows == [] then None
    else if rows[0].account == account && rows[0].email == Some(email) then Some(rows[0])
    else FirstByEmail(rows[1..], account, email)
  }

  function FirstByPhone(rows: seq<Contact>, account: int, phone: string): (r: Option<Contact>)
    ensures r.Some? ==> r.value in rows && r.value.account == account && r.value.phone == Some(phone)
    ensures r.None? ==> forall i | 0 <= i < |rows| :: !(rows[i].account == account && rows[i].phone == Some(phone))
  {
    if rows == [] then None
    else if rows[0].account == account && rows[0].phone == Some(phone) then Some(rows[0])
    else FirstByPhone(rows[1..], account, phone)
  }

  function FirstBySource(rows: seq<Message>, account: int, sourceId: string): (r: Option<Message>)
    ensures r.Some? ==> r.value in rows && r.value.account == account && r.value.sourceId == Some(sourceId)
    ensures r.None? ==> forall i | 0 <= i < |rows| ::
              !(rows[i].account == account && rows[i].sourceId == Some(sourceId))
  {
    if rows == [] then None
    else if rows[0].account == account && rows[0].sourceId == Some(sourceId) then Some(rows[0])
    else FirstBySource(rows[1..], account, sourceId)
  }

  function LinkOf(s: Store, inbox: int, source: string): Option<Link> {
    FirstLink(s.links, inbox, source)
  }

  function LinkBetween(s: Store, contact: int, inbox: int): Option<Link> {
    FirstLinkBetween(s.links, contact, inbox)
  }

  function ByEmail(s: Store, account: int, email: Option<string>): Option<Contact> {
    if email.None? then None else FirstByEmail(s.contacts, account, email.value)
  }

  function ByPhone(s: Store, account: int, phone: Option<string>): Option<Contact> {
    if phone.None? then None else FirstByPhone(s.contacts, account, phone.value)
  }

  function BySource(s: Store, account: int, sourceId: string): Option<Message> {
    FirstBySource(s.messages, account, sourceId)
  }

  /** findContactBySource: by the link of this inbox, then by e-mail, then by phone. */
  function FindContact(s: Store, account: int, inbox: int, item: Item): Option<int> {
    var link := LinkOf(s, inbox, item.contactSource);
    if link.Some? && link.value.contact.Some? then link.value.contact
    else if Truthy(item.email) && ByEmail(s, account, item.email).Some? then
      Some(ByEmail(s, account, item.email).value.id)
    else if Truthy(item.phone) && ByPhone(s, account, item.phone).Some? then
      Some(ByPhone(s, account, item.phone).value.id)
    else None
  }

  predicate Reusable(c: Conversation, account: int, inbox: int, contact: int) {
    c.account == account && c.inbox == inbox && c.contact == Some(contact) && c.status == Open
  }

  /** The reusable conversation with the latest activity. */
  function LatestOpen(rows: seq<Conversation>, account: int, inbox: int, contact: int): (r: Option<Conversation>)
    ensures r.Some? ==> r.value in rows && Reusable(r.value, account, inbox, contact)
    ensures forall i | 0 <= i < |rows| && Reusable(rows[i], account, inbox, contact) ::
              r.Some? && rows[i].lastActivity <= r.value.lastActivity
  {
    if rows == [] then None
    else
      var best := LatestOpen(rows[1..], account, inbox, contact);
      if Reusable(rows[0], account, inbox, contact) && (best.None? || rows[0].lastActivity >= best.value.lastActivity)
      then Some(rows[0]) else best
  }

  function MaxDisplay(rows: seq<Conversation>, account: int): (r: Option<int>)
    ensures forall i | 0 <= i < |rows| && rows[i].account == account :: r.Some? && rows[i].displayId <= r.value
  {
    if rows == [] then None
    else
      var rest := MaxDisplay(rows[1..], account);
      if rows[0].account == account && (rest.None? || rest.value < rows[0].displayId)
      then Some(rows[0].displayId) else rest
  }

  // ---- Writes; the database refuses rows that break a unique index ----

  function EnsureContact(s: Store, account: int, inbox: int, item: Item): (Store, Option<int>) {
    var found := FindContact(s, account, inbox, item);
    if found.Some? then (s, found)
    else if ByEmail(s, account, item.email).Some? then (s, None)
    else
      var row := Contact(s.nextId, account, item.name.GetOr(item.contactSource), item.email, item.phone);
      (s.(contacts := s.contacts + [row], nextId := s.nextId + 1), Some(row.id))
  }

  function EnsureLink(s: Store, contact: int, inbox: int, source: string): (Store, Option<int>) {
    var found := LinkBetween(s, contact, inbox);
    if found.Some? then (s, Some(found.value.id))
    else if LinkOf(s, inbox, source).Some? then (s, None)
    else (s.(links := s.links + [Link(s.nextId, inbox, Some(contact), source)], nextId := s.nextId + 1), Some(s.nextId))
  }

  function EnsureConversation(s: Store, account: int, inbox: int, contact: int, link: int, at: int): (Store, int) {
    var found := LatestOpen(s.conversations, account, inbox, contact);
    if found.Some? then (s, found.value.id)
    else
      var row := Conversation(s.nextId, account, inbox, Some(contact), Some(link),
                              MaxDisplay(s.conversations, account).GetOr(0) + 1, Open, at, None);
      (s.(conversations := s.conversations + [row], nextId := s.nextId + 1), row.id)
  }

  /** What an incoming message changes in its conversation. */
  function Touched(c: Conversation, at: int): Conversation {
    c.(lastActivity := at,
       waitingSince := WaitingFrom(c.waitingSince, at),
       status := Reopened(c.status))
  }

  function TouchedRows(rows: seq<Conversation>, account: int, id: int, at: int): seq<Conversation> {
    seq(|rows|, i requires 0 <= i < |rows| =>
      if rows[i].account == account && rows[i].id == id then Touched(rows[i], at) else rows[i])
  }

  function AddMessage(s: Store, account: int, conversation: int, contact: int, item: Item): Store {
    s.(messages := s.messages + [Message(s.nextId, account, conversation, contact, item.content,
                                         Some(item.sourceId), item.attachments)],
       conversations := TouchedRows(s.conversations, account, conversation, item.at),
       nextId := s.nextId + 1)
  }

  // ---- ingestInbound ----

  predicate HasInbox(s: Store, account: int, inbox: int) {
    Inbox(inbox, account) in s.inboxes
  }

  /** A failing insertion aborts the item; the rows inserted before it stay. */
  function Create(s: Store, account: int, inbox: int, item: Item): (Store, Result) {
    var (s1, contact) := EnsureContact(s, account, inbox, item);
    if contact.None? then (s1, Failed(ContactConflict))
    else
      var (s2, link) := EnsureLink(s1, contact.value, inbox, item.contactSource);
      if link.None? then (s2, Failed(LinkConflict))
      else
        var (s3, conversation) := EnsureConversation(s2, account, inbox, contact.value, link.value, item.at);
        (AddMessage(s3, account, conversation, contact.value, item),
         Ingested(conversation, Some(s3.nextId), contact.value))
  }

  function Ingest(s: Store, account: int, inbox: int, item: Item): (Store, Result) {
    if !HasInbox(s, account, inbox) then (s, Failed(InboxNotFound))
    else
      var existing := BySource(s, account, item.sourceId);
      if existing.Some? then
        var link := LinkOf(s, inbox, item.contactSource);
        (s, Deduplicated(existing.value.conversation, Some(existing.value.id),
                         if link.Some? then link.value.contact.GetOr(0) else 0))
      else if item.isStatus then (s, Deduplicated(0, None, 0))
      else Create(s, account, inbox, item)
  }

  datatype Tally = Tally(store: Store, ingested: nat, deduplicated: nat, error: Option<Error>)

  /** The loop of ingestAll, from the counts so far; a failing item ends it. */
  function LoopFrom(ingest: (Store, Item) -> (Store, Result), t: Tally, items: seq<Item>): Tally
    decreases |items|
  {
    if items == [] then t
    else
      var (s, r) := ingest(t.store, items[0]);
      if r.Failed? then t.(store := s, error := Some(r.error))
      else if r.Deduplicated? then LoopFrom(ingest, t.(store := s, deduplicated := t.deduplicated + 1), items[1..])
      else LoopFrom(ingest, t.(store := s, ingested := t.ingested + 1), items[1..])
  }

  function Ingester(account: int, inbox: int): (Store, Item) -> (Store, Result) {
    (s: Store, item: Item) => Ingest(s, account, inbox, item)
  }

  function IngestAll(s: Store, account: int, inbox: int, items: seq<Item>): Tally {
    LoopFrom(Ingester(account, inbox), Tally(s, 0, 0, None), items)
  }

  // ---- Redelivery ----

  function Known(s: Store, account: int): set<string> {
    set m | m in s.messages && m.account == account && m.sourceId.Some? :: m.sourceId.value
  }

  /** The items that are no status events and whose source id is new when they come. */
  function Fresh(known: set<string>, items: seq<Item>): (r: seq<Item>)
    ensures |r| <= |items|
    decreases |items|
  {
    if items == [] then []
    else if items[0].isStatus || items[0].sourceId in known then Fresh(known, items[1..])
    else [items[0]] + Fresh(known + {items[0].sourceId}, items[1..])
  }

  lemma KnownIffFound(s: Store, account: int, sourceId: string)
    ensures BySource(s, account, sourceId).Some? <==> sourceId in Known(s, account)
  {
  }

  lemma IngestKnown(s: Store, account: int, inbox: int, item: Item)
    requires HasInbox(s, account, inbox)
    ensures var (s', r) := Ingest(s, account, inbox, item);
            && s'.inboxes == s.inboxes
            && (r.Deduplicated? <==> item.isStatus || item.sourceId in Known(s, account))
            && (r.Deduplicated? ==> s' == s)
            && (r.Ingested? ==> Known(s', account) == Known(s, account) + {item.sourceId})
  {
    KnownIffFound(s, account, item.sourceId);
    var (s', r) := Ingest(s, account, inbox, item);
    if r.Ingested? {
      var before, row := s'.messages[..|s.messages|], s'.messages[|s.messages|];
      assert s'.messages == s.messages + [row] && row.sourceId == Some(item.sourceId);
    }
  }

  lemma FreshTakes(known: set<string>, items: seq<Item>)
    requires items != [] && !items[0].isStatus && items[0].sourceId !in known
    ensures var unseen := Fresh(known, items);
            unseen != [] && unseen[0] == items[0] && unseen[1..] == Fresh(known + {items[0].sourceId}, items[1..])
  {
  }

  /** What the loop needs to know of the step: it deduplicates exactly status events
      and known source ids, then changes nothing, and otherwise makes the id known. */
  ghost predicate Dedups(ingest: (Store, Item) -> (Store, Result), known: Store -> set<string>, ready: Store -> bool) {
    forall s, item | ready(s) ::
      var (s', r) := ingest(s, item);
      && ready(s')
      && (r.Deduplicated? <==> item.isStatus || item.sourceId in known(s))
      && (r.Deduplicated? ==> s' == s)
      && (r.Ingested? ==> known(s') == known(s) + {item.sourceId})
  }

  /** From any counts: the outcome is that of the fresh items alone, which are all
      ingested, and every item is counted. */
  lemma {:induction false} LoopIgnoresKnown(
    ingest: (Store, Item) -> (Store, Result), known: Store -> set<string>, ready: Store -> bool,
    t: Tally, items: seq<Item>, skipped: nat)
    requires Dedups(ingest, known, ready) && ready(t.store)
    requires t.error.None?
    ensures var all := LoopFrom(ingest, t, items);
            var unseen := Fresh(known(t.store), items);
            var only := LoopFrom(ingest, t.(deduplicated := skipped), unseen);
            && all.store == only.store && all.error == only.error
            && all.ingested == only.ingested && only.deduplicated == skipped
            && (all.error.None? ==>
                  && all.ingested == t.ingested + |unseen|
                  && all.ingested + all.deduplicated == t.ingested + t.deduplicated + |items|)
    decreases |items|
  {
    if items != [] {
      var (s, r) := ingest(t.store, items[0]);
      if r.Deduplicated? {
        LoopIgnoresKnown(ingest, known, ready, t.(deduplicated := t.deduplicated + 1), items[1..], skipped);
      } else {
        FreshTakes(known(t.store), items);
        if r.Ingested? {
          LoopIgnoresKnown(ingest, known, ready, t.(store := s, ingested := t.ingested + 1), items[1..], skipped);
        }
      }
    }
  }

  /** Redelivery is invisible: for any list of items handled one after the other. */
  lemma RedeliveryInvisible(s: Store, account: int, inbox: int, items: seq<Item>)
    requires HasInbox(s, account, inbox)
    ensures var all := IngestAll(s, account, inbox, items);
            var unseen := Fresh(Known(s, account), items);
            var only := IngestAll(s, account, inbox, unseen);
            && all.store == only.store && all.error == only.error
            && all.ingested == only.ingested && only.deduplicated == 0
            && (all.error.None? ==> all.ingested == |unseen| && all.ingested + all.deduplicated == |items|)
  {
    var known := (x: Store) => Known(x, account);
    var ready := (x: Store) => HasInbox(x, account, inbox);
    forall x, item | ready(x)
      ensures var (x', r) := Ingester(account, inbox)(x, item);
              && ready(x')
              && (r.Deduplicated? <==> item.isStatus || item.sourceId in known(x))
              && (r.Deduplicated? ==> x' == x)
              && (r.Ingested? ==> known(x') == known(x) + {item.sourceId})
    {
      IngestKnown(x, account, inbox, item);
    }
    LoopIgnoresKnown(Ingester(account, inbox), known, ready, Tally(s, 0, 0, None), items, 0);
  }

  // ---- Uniqueness ----

  /** (inbox, source id) links, per-account e-mails and per-account display ids are
      pairwise distinct; ids in use are below the next one. */
  ghost predicate Unique(s: Store) {
    && (forall i, j | 0 <= i < j < |s.links| ::
          !(s.links[i].inbox == s.links[j].inbox && s.links[i].source == s.links[j].source))
    && (forall i, j | 0 <= i < j < |s.contacts| ::
          !(s.contacts[i].account == s.contacts[j].account && s.contacts[i].email.Some?
            && s.contacts[i].email == s.contacts[j].email))
    && (forall i, j | 0 <= i < j < |s.conversations| ::
          !(s.conversations[i].account == s.conversations[j].account
            && s.conversations[i].displayId == s.conversations[j].displayId))
    && (forall i | 0 <= i < |s.links| && s.links[i].contact.Some? :: s.links[i].contact.value < s.nextId)
  }

  lemma ContactKeepsUnique(s: Store, account: int, inbox: int, item: Item)
    requires Unique(s)
    ensures Unique(EnsureContact(s, account, inbox, item).0)
  {
  }

  lemma LinkKeepsUnique(s: Store, contact: int, inbox: int, source: string)
    requires Unique(s) && contact < s.nextId
    ensures Unique(EnsureLink(s, contact, inbox, source).0)
  {
  }

  lemma ConversationKeepsUnique(s: Store, account: int, inbox: int, contact: int, link: int, at: int)
    requires Unique(s)
    ensures Unique(EnsureConversation(s, account, inbox, contact, link, at).0)
  {
  }

  lemma MessageKeepsUnique(s: Store, account: int, conversation: int, contact: int, item: Item)
    requires Unique(s)
    ensures Unique(AddMessage(s, account, conversation, contact, item))
  {
  }

  ghost predicate ContactsBounded(s: Store) {
    forall i | 0 <= i < |s.contacts| :: s.contacts[i].id < s.nextId
  }

  lemma FoundIsBounded(s: Store, account: int, inbox: int, item: Item)
    requires Unique(s) && ContactsBounded(s)
    ensures var (s1, contact) := EnsureContact(s, account, inbox, item);
            ContactsBounded(s1) && (contact.Some? ==> contact.value < s1.nextId)
  {
  }

  lemma CreateBounded(s: Store, account: int, inbox: int, item: Item)
    requires Unique(s) && ContactsBounded(s)
    ensures ContactsBounded(Create(s, account, inbox, item).0)
  {
  }

  lemma CreateKeepsUnique(s: Store, account: int, inbox: int, item: Item)
    requires Unique(s) && ContactsBounded(s)
    ensures Unique(Create(s, account, inbox, item).0)
  {
    var (s1, contact) := EnsureContact(s, account, inbox, item);
    ContactKeepsUnique(s, account, inbox, item);
    FoundIsBounded(s, account, inbox, item);
    if contact.Some? {
      var (s2, link) := EnsureLink(s1, contact.value, inbox, item.contactSource);
      LinkKeepsUnique(s1, contact.value, inbox, item.contactSource);
      if link.Some? {
        var (s3, conversation) := EnsureConversation(s2, account, inbox, contact.value, link.value, item.at);
        ConversationKeepsUnique(s2, account, inbox, contact.value, link.value, item.at);
        MessageKeepsUnique(s3, account, conversation, contact.value, item);
      }
    }
  }

  /** Every step keeps the three uniqueness properties, also a step that fails. */
  lemma IngestKeepsUnique(s: Store, account: int, inbox: int, item: Item)
    requires Unique(s) && ContactsBounded(s)
    ensures Unique(Ingest(s, account, inbox, item).0) && ContactsBounded(Ingest(s, account, inbox, item).0)
  {
    CreateBounded(s, account, inbox, item);
    CreateKeepsUnique(s, account, inbox, item);
  }

  lemma {:induction false} LoopKeeps(
    ingest: (Store, Item) -> (Store, Result), inv: Store -> bool, t: Tally, items: seq<Item>)
    requires forall s, item | inv(s) :: inv(ingest(s, item).0)
    requires inv(t.store)
    ensures inv(LoopFrom(ingest, t, items).store)
    decreases |items|
  {
    if items != [] {
      var (s, r) := ingest(t.store, items[0]);
      if r.Deduplicated? {
        LoopKeeps(ingest, inv, t.(store := s, deduplicated := t.deduplicated + 1), items[1..]);
      } else if r.Ingested? {
        LoopKeeps(ingest, inv, t.(store := s, ingested := t.ingested + 1), items[1..]);
      }
    }
  }

  /** ... and so does every run over any list of items. */
  lemma RunKeepsUnique(s: Store, account: int, inbox: int, items: seq<Item>)
    requires Unique(s) && ContactsBounded(s)
    ensures Unique(IngestAll(s, account, inbox, items).store)
  {
    ghost var inv: Store -> bool := (x: Store) => Unique(x) && ContactsBounded(x);
    forall x, item | inv(x) ensures inv(Ingester(account, inbox)(x, item).0) {
      IngestKeepsUnique(x, account, inbox, item);
    }
    LoopKeeps(Ingester(account, inbox), inv, Tally(s, 0, 0, None), items);
  }

  // ---- When ingestion fails ----

  /** A link of this inbox and source whose contact is gone. */
  predicate Orphaned(s: Store, inbox: int, source: string) {
    LinkOf(s, inbox, source).Some? && LinkOf(s, inbox, source).value.contact.None?
  }

  /** The item names the empty e-mail address, which is not looked up, and a contact has it already. */
  predicate EmptyMailTaken(s: Store, account: int, item: Item) {
    item.email == Some("") && exists i | 0 <= i < |s.contacts| ::
      s.contacts[i].account == account && s.contacts[i].email == Some("")
  }

  /** A fresh item of an existing inbox fails exactly when no contact is found and its empty e-mail
      address is taken, or when its link is orphaned and the contact has no link in the inbox. */
  lemma CreateFailsIff(s: Store, account: int, inbox: int, item: Item)
    requires Unique(s)
    ensures var contact := FindContact(s, account, inbox, item);
            var r := Create(s, account, inbox, item).1;
            && (r == Failed(ContactConflict) <==> contact.None? && EmptyMailTaken(s, account, item))
            && (r == Failed(LinkConflict) <==>
                  && !(contact.None? && EmptyMailTaken(s, account, item))
                  && Orphaned(s, inbox, item.contactSource)
                  && (contact.None? || LinkBetween(s, contact.value, inbox).None?))
            && r != Failed(InboxNotFound)
  {
  }

  // ---- Where an ingested message ends up ----

  /** A link of this inbox and source leads to the contact. */
  predicate Linked(s: Store, inbox: int, item: Item, id: int) {
    exists i | 0 <= i < |s.links| ::
      s.links[i].inbox == inbox && s.links[i].source == item.contactSource && s.links[i].contact == Some(id)
  }

  predicate Mails(s: Store, account: int, item: Item, id: int) {
    && item.email.Some? && item.email.value != ""
    && exists i | 0 <= i < |s.contacts| ::
         s.contacts[i].account == account && s.contacts[i].email == item.email && s.contacts[i].id == id
  }

  predicate Phones(s: Store, account: int, item: Item, id: int) {
    && item.phone.Some? && item.phone.value != ""
    && exists i | 0 <= i < |s.contacts| ::
         s.contacts[i].account == account && s.contacts[i].phone == item.phone && s.contacts[i].id == id
  }

  lemma NotLinked(s: Store, account: int, inbox: int, item: Item)
    requires Unique(s)
    ensures var link := LinkOf(s, inbox, item.contactSource);
            link.None? || link.value.contact.None? ==> forall id :: !Linked(s, inbox, item, id)
  {
  }

  /** The contact of an item: that of its link, or else one with its e-mail address, or else one with
      its phone number; none is found only when there is none of these. */
  lemma FoundMeaning(s: Store, account: int, inbox: int, item: Item)
    requires Unique(s)
    ensures var r := FindContact(s, account, inbox, item);
            && (r.Some? ==>
                  || Linked(s, inbox, item, r.value)
                  || ((forall id :: !Linked(s, inbox, item, id)) && Mails(s, account, item, r.value))
                  || ((forall id :: !Linked(s, inbox, item, id) && !Mails(s, account, item, id))
                      && Phones(s, account, item, r.value)))
            && (r.None? ==> forall id ::
                  !Linked(s, inbox, item, id) && !Mails(s, account, item, id) && !Phones(s, account, item, id))
  {
    NotLinked(s, account, inbox, item);
  }

  /** The contact is the one found, or the only new row of its table. */
  lemma ContactMeaning(s: Store, account: int, inbox: int, item: Item)
    ensures var (s', contact) := EnsureContact(s, account, inbox, item);
            && s' == s.(contacts := s'.contacts, nextId := s'.nextId)
            && (FindContact(s, account, inbox, item).Some? ==>
                  contact == FindContact(s, account, inbox, item) && s' == s)
            && (FindContact(s, account, inbox, item).None? && contact.Some? ==>
                  && contact.value == s.nextId < s'.nextId
                  && s'.contacts == s.contacts
                       + [Contact(s.nextId, account, if item.name.Some? then item.name.value else item.contactSource,
                                  item.email, item.phone)])
  {
  }

  /** The contact had a link in the inbox, or gets one for the item's source. */
  lemma LinkMeaning(s: Store, contact: int, inbox: int, source: string)
    ensures var (s', link) := EnsureLink(s, contact, inbox, source);
            var linked := exists i | 0 <= i < |s.links| ::
                            s.links[i].contact == Some(contact) && s.links[i].inbox == inbox;
            && s' == s.(links := s'.links, nextId := s'.nextId)
            && (linked ==> s' == s && exists i | 0 <= i < |s.links| ::
                  s.links[i].contact == Some(contact) && s.links[i].inbox == inbox && link == Some(s.links[i].id))
            && (!linked && link.Some? ==>
                  && link.value == s.nextId < s'.nextId
                  && s'.links == s.links + [Link(s.nextId, inbox, Some(contact), source)])
  {
  }

  /** An open conversation of the account, inbox and contact. */
  predicate OpenBetween(c: Conversation, account: int, inbox: int, contact: int) {
    c.account == account && c.inbox == inbox && c.contact == Some(contact) && c.status == Open
  }

  lemma {:induction false} MaxDisplayIsUsed(rows: seq<Conversation>, account: int)
    ensures MaxDisplay(rows, account).Some? ==>
              exists i | 0 <= i < |rows| ::
                rows[i].account == account && rows[i].displayId == MaxDisplay(rows, account).value
  {
    if rows != [] {
      MaxDisplayIsUsed(rows[1..], account);
      if rows[0].account == account && rows[0].displayId == MaxDisplay(rows, account).value {
      } else if MaxDisplay(rows, account).Some? {
        var i :| 0 <= i < |rows[1..]| && rows[1..][i].account == account
                 && rows[1..][i].displayId == MaxDisplay(rows[1..], account).value;
        assert rows[i + 1] == rows[1..][i];
      }
    }
  }

  /** A new conversation's display id is one more than the greatest of its account, or 1. */
  predicate NextDisplay(rows: seq<Conversation>, account: int, display: int) {
    && (forall i | 0 <= i < |rows| && rows[i].account == account :: rows[i].displayId < display)
    && if exists i | 0 <= i < |rows| :: rows[i].account == account
       then exists i | 0 <= i < |rows| :: rows[i].account == account && rows[i].displayId == display - 1
       else display == 1
  }

  /** The conversation is the open one of the contact with the latest activity, or a new one. */
  lemma ConversationMeaning(s: Store, account: int, inbox: int, contact: int, link: int, at: int) returns (i: nat)
    ensures var (s', id) := EnsureConversation(s, account, inbox, contact, link, at);
            && i < |s'.conversations| && s'.conversations[i].id == id
            && OpenBetween(s'.conversations[i], account, inbox, contact)
            && s' == s.(conversations := s'.conversations, nextId := s'.nextId)
            && if exists k | 0 <= k < |s.conversations| :: OpenBetween(s.conversations[k], account, inbox, contact)
               then s' == s && forall k | 0 <= k < |s.conversations| ::
                      OpenBetween(s.conversations[k], account, inbox, contact)
                      ==> s.conversations[k].lastActivity <= s.conversations[i].lastActivity
               else && i == |s.conversations| && id == s.nextId < s'.nextId
                    && s'.conversations == s.conversations + [s'.conversations[i]]
                    && s'.conversations[i].link == Some(link) && s'.conversations[i].waitingSince == None
                    && NextDisplay(s.conversations, account, s'.conversations[i].displayId)
  {
    var found := LatestOpen(s.conversations, account, inbox, contact);
    if found.Some? {
      i :| 0 <= i < |s.conversations| && s.conversations[i] == found.value;
    } else {
      i := |s.conversations|;
      MaxDisplayIsUsed(s.conversations, account);
    }
  }

  /** One message is added, and of the conversations only the named one changes: it is just active,
      waiting, and no longer resolved. */
  lemma MessageMeaning(s: Store, account: int, conversation: int, contact: int, item: Item)
    ensures var s' := AddMessage(s, account, conversation, contact, item);
            && s'.messages == s.messages
                 + [Message(s.nextId, account, conversation, contact, item.content, Some(item.sourceId),
                            item.attachments)]
            && s' == s.(messages := s'.messages, conversations := s'.conversations, nextId := s'.nextId)
            && s.nextId < s'.nextId
            && |s'.conversations| == |s.conversations|
            && forall i | 0 <= i < |s.conversations| ::
                 var c := s.conversations[i];
                 s'.conversations[i]
                 == if c.id != conversation || c.account != account then c
                    else c.(lastActivity := item.at,
                            waitingSince := Some(if c.waitingSince.Some? then c.waitingSince.value else item.at),
                            status := if c.status == Resolved then Open else c.status)
  {
  }

  lemma LinkIsThere(s: Store, contact: int, inbox: int, source: string)
    requires EnsureLink(s, contact, inbox, source).1.Some?
    ensures LinkBetween(EnsureLink(s, contact, inbox, source).0, contact, inbox).Some?
  {
    var s' := EnsureLink(s, contact, inbox, source).0;
    if LinkBetween(s, contact, inbox).None? {
      assert s'.links[|s.links|].contact == Some(contact);
    }
  }

  predicate Waits(c: Conversation, account: int, inbox: int, id: int, contact: int, item: Item) {
    c.id == id && OpenBetween(c, account, inbox, contact) && c.lastActivity == item.at && c.waitingSince.Some?
  }

  /** An ingested item is the last message, word for word, from the contact of the result; it lies in
      an open conversation of that inbox and contact, just active and waiting; the contact is
      linked to the inbox; and the contact is the one found, or new. */
  lemma IngestedMeaning(s: Store, account: int, inbox: int, item: Item)
    requires Ingest(s, account, inbox, item).1.Ingested?
    ensures var (s', r) := Ingest(s, account, inbox, item);
            && r.message.Some?
            && s'.messages == s.messages
                 + [Message(r.message.value, account, r.conversation, r.contact, item.content, Some(item.sourceId),
                            item.attachments)]
            && (exists i | 0 <= i < |s'.conversations| ::
                  Waits(s'.conversations[i], account, inbox, r.conversation, r.contact, item))
            && (exists i | 0 <= i < |s'.links| ::
                  s'.links[i].contact == Some(r.contact) && s'.links[i].inbox == inbox)
            && r.contact == FindContact(s, account, inbox, item).GetOr(s.nextId)
  {
    var (s1, contact) := EnsureContact(s, account, inbox, item);
    var (s2, link) := EnsureLink(s1, contact.value, inbox, item.contactSource);
    var (s3, conversation) := EnsureConversation(s2, account, inbox, contact.value, link.value, item.at);
    var (s', r) := Ingest(s, account, inbox, item);
    var i := ConversationMeaning(s2, account, inbox, contact.value, link.value, item.at);
    assert Waits(s'.conversations[i], account, inbox, r.conversation, r.contact, item);
    LinkIsThere(s1, contact.value, inbox, item.contactSource);
    assert s'.links == s2.links;
  }

  /** What is answered without ingesting: an unknown inbox, a message that is there already, with the
      contact of its link if any, and a status event. The tables stay. */
  lemma NotIngestedMeaning(s: Store, account: int, inbox: int, item: Item)
    requires Unique(s)
    ensures var (s', r) := Ingest(s, account, inbox, item);
            var there := exists i | 0 <= i < |s.messages| ::
                           s.messages[i].account == account && s.messages[i].sourceId == Some(item.sourceId);
            && (Inbox(inbox, account) !in s.inboxes ==> s' == s && r == Failed(InboxNotFound))
            && (Inbox(inbox, account) in s.inboxes && there ==>
                  && s' == s && r.Deduplicated?
                  && (exists i | 0 <= i < |s.messages| ::
                        && s.messages[i].account == account && s.messages[i].sourceId == Some(item.sourceId)
                        && r.conversation == s.messages[i].conversation && r.message == Some(s.messages[i].id))
                  && (Linked(s, inbox, item, r.contact)
                      || (r.contact == 0 && forall id :: !Linked(s, inbox, item, id))))
            && (Inbox(inbox, account) in s.inboxes && !there && item.isStatus ==>
                  s' == s && r == Deduplicated(0, None, 0))
            && (Inbox(inbox, account) in s.inboxes && !there && !item.isStatus ==>
                  (s', r) == Create(s, account, inbox, item))
  {
    NotLinked(s, account, inbox, item);
  }

  /** When the loop ends early, it ends at the first item that fails, with what that item left. */
  lemma {:induction false} LoopStops(ingest: (Store, Item) -> (Store, Result), t: Tally, items: seq<Item>)
    requires t.error.None? && LoopFrom(ingest, t, items).error.Some?
    ensures exists k | 0 <= k < |items| ::
              var before, after := LoopFrom(ingest, t, items[..k]), LoopFrom(ingest, t, items);
              && before.error.None?
              && ingest(before.store, items[k]) == (after.store, Failed(after.error.value))
              && after.ingested == before.ingested && after.deduplicated == before.deduplicated
    decreases |items|
  {
    var (s, r) := ingest(t.store, items[0]);
    if r.Failed? {
      assert LoopFrom(ingest, t, items[..0]) == t;
    } else {
      var next := if r.Deduplicated? then t.(store := s, deduplicated := t.deduplicated + 1)
                  else t.(store := s, ingested := t.ingested + 1);
      LoopStops(ingest, next, items[1..]);
      var after := LoopFrom(ingest, next, items[1..]);
      var k :| 0 <= k < |items[1..]| && var before := LoopFrom(ingest, next, items[1..][..k]);
                 && before.error.None?
                 && ingest(before.store, items[1..][k]) == (after.store, Failed(after.error.value))
                 && after.ingested == before.ingested && after.deduplicated == before.deduplicated;
      assert items[..k + 1][0] == items[0] && items[..k + 1][1..] == items[1..][..k];
      assert LoopFrom(ingest, t, items[..k + 1]) == LoopFrom(ingest, next, items[1..][..k]);
    }
  }

  // ---- The pipeline ----

  lemma LoopStep(account: int, inbox: int, t: Tally, items: seq<Item>, i: nat)
    requires i < |items|
    ensures var (s, r) := Ingest(t.store, account, inbox, items[i]);
            var rest := (next: Tally) => LoopFrom(Ingester(account, inbox), next, items[i + 1..]);
            LoopFrom(Ingester(account, inbox), t, items[i..])
            == if r.Failed? then t.(store := s, error := Some(r.error))
               else if r.Deduplicated? then rest(t.(store := s, deduplicated := t.deduplicated + 1))
               else rest(t.(store := s, ingested := t.ingested + 1))
  {
    assert items[i..][0] == items[i] && items[i..][1..] == items[i + 1..];
  }

  class InboundPipeline {
    var inboxes: seq<Inbox>
    var contacts: seq<Contact>
    var links: seq<Link>
    var conversations: seq<Conversation>
    var messages: seq<Message>
    var nextId: int

    function Tables(): Store
      reads this
    {
      Store(inboxes, contacts, links, conversations, messages, nextId)
    }

    method ContactFor(account: int, inbox: int, item: Item) returns (contact: Option<int>)
      modifies this
      ensures (Tables(), contact) == EnsureContact(old(Tables()), account, inbox, item)
    {
      contact := FindContact(Tables(), account, inbox, item);
      if contact.None? && ByEmail(Tables(), account, item.email).None? {
        contacts := contacts + [Contact(nextId, account, item.name.GetOr(item.contactSource), item.email, item.phone)];
        contact := Some(nextId);
        nextId := nextId + 1;
      }
    }

    method LinkFor(contact: int, inbox: int, source: string) returns (link: Option<int>)
      modifies this
      ensures (Tables(), link) == EnsureLink(old(Tables()), contact, inbox, source)
    {
      var found := LinkBetween(Tables(), contact, inbox);
      if found.Some? {
        return Some(found.value.id);
      }
      if LinkOf(Tables(), inbox, source).Some? {
        return None;
      }
      links := links + [Link(nextId, inbox, Some(contact), source)];
      link := Some(nextId);
      nextId := nextId + 1;
    }

    method ConversationFor(account: int, inbox: int, contact: int, link: int, at: int) returns (id: int)
      modifies this
      ensures (Tables(), id) == EnsureConversation(old(Tables()), account, inbox, contact, link, at)
    {
      var found := LatestOpen(conversations, account, inbox, contact);
      if found.Some? {
        return found.value.id;
      }
      var display := MaxDisplay(conversations, account).GetOr(0) + 1;
      id := nextId;
      conversations := conversations
        + [Conversation(id, account, inbox, Some(contact), Some(link), display, Open, at, None)];
      nextId := nextId + 1;
    }

    /** createIncomingMessage, then the platform's source id and the attachments. */
    method CreateIncomingMessage(account: int, conversation: int, contact: int, item: Item) returns (id: int)
      modifies this
      ensures Tables() == AddMessage(old(Tables()), account, conversation, contact, item)
      ensures id == old(nextId)
    {
      id := nextId;
      nextId := nextId + 1;
      var row := Message(id, account, conversation, contact, item.content, None, []);
      messages := messages + [row];
      conversations := TouchedRows(conversations, account, conversation, item.at);
      messages := messages[|messages| - 1 := row.(sourceId := Some(item.sourceId), attachments := item.attachments)];
    }

    method IngestInbound(account: int, inbox: int, item: Item) returns (result: Result)
      modifies this
      ensures (Tables(), result) == Ingest(old(Tables()), account, inbox, item)
    {
      if Inbox(inbox, account) !in inboxes {
        return Failed(InboxNotFound);
      }
      var existing := BySource(Tables(), account, item.sourceId);
      if existing.Some? {
        var link := LinkOf(Tables(), inbox, item.contactSource);
        return Deduplicated(existing.value.conversation, Some(existing.value.id),
                            if link.Some? then link.value.contact.GetOr(0) else 0);
      }
      if item.isStatus {
        return Deduplicated(0, None, 0);
      }
      var contact := ContactFor(account, inbox, item);
      if contact.None? {
        return Failed(ContactConflict);
      }
      var link := LinkFor(contact.value, inbox, item.contactSource);
      if link.None? {
        return Failed(LinkConflict);
      }
      var conversation := ConversationFor(account, inbox, contact.value, link.value, item.at);
      var message := CreateIncomingMessage(account, conversation, contact.value, item);
      return Ingested(conversation, Some(message), contact.value);
    }

    method IngestAllItems(account: int, inbox: int, items: seq<Item>)
      returns (ingested: nat, deduplicated: nat, error: Option<Error>)
      modifies this
      ensures Tally(Tables(), ingested, deduplicated, error) == IngestAll(old(Tables()), account, inbox, items)
    {
      ingested, deduplicated, error := 0, 0, None;
      assert items[0..] == items;
      for i := 0 to |items|
        invariant error.None?
        invariant LoopFrom(Ingester(account, inbox), Tally(Tables(), ingested, deduplicated, None), items[i..])
               == IngestAll(old(Tables()), account, inbox, items)
      {
        LoopStep(account, inbox, Tally(Tables(), ingested, deduplicated, None), items, i);
        var r := IngestInbound(account, inbox, items[i]);
        if r.Failed? {
          error := Some(r.error);
          return;
        }
        if r.Deduplicated? {
          deduplicated := deduplicated + 1;
        } else {
          ingested := ingested + 1;
        }
      }
    }
  }
}
