// Merging a child contact into a base contact.

module ContactMerge {
  import opened Prelude
  import opened JsValues

  type Attributes = map<string, Value>

  datatype Contact = Contact(
    account: int, name: Option<string>, email: Option<string>, phone: Option<string>,
    custom: Option<Attributes>, additional: Option<Attributes>, lastActivity: Option<int>)

  /** A contact_inbox: the contact as one inbox knows it. */
  datatype Link = Link(contact: Option<int>, inbox: Option<int>, source: string)

  datatype Taggable = OnContact(contact: int) | OnConversation(conversation: int)

  datatype Tagging = Tagging(tag: int, target: Taggable)

  /** The tables, keyed by row id; a note is its contact. */
  datatype Store = Store(
    contacts: map<int, Contact>, links: map<int, Link>, notes: map<int, int>, taggings: map<int, Tagging>)

  datatype Result = Merged | SameContact | NotFound | EmailTaken

  // ---- The parts of the transaction ----

  predicate IsLink(links: map<int, Link>, id: int, contact: int, inbox: int) {
    id in links && links[id].contact == Some(contact) && links[id].inbox == Some(inbox)
  }

  predicate Linked(links: map<int, Link>, contact: int, inbox: int) {
    exists id | id in links :: IsLink(links, id, contact, inbox)
  }

  predicate Clashes(links: map<int, Link>, inbox: Option<int>, base: int) {
    inbox.Some? && Linked(links, base, inbox.value)
  }

  function MoveLink(links: map<int, Link>, id: int, base: int): map<int, Link>
    requires id in links
  {
    if Clashes(links, links[id].inbox, base) then links else links[id := links[id].(contact := Some(base))]
  }

  /** The loop over the child's links, in the order the database returned them. */
  function MoveLinks(links: map<int, Link>, order: seq<int>, base: int): (r: map<int, Link>)
    requires forall k | 0 <= k < |order| :: order[k] in links
    ensures r.Keys == links.Keys
  {
    if order == [] then links else MoveLinks(MoveLink(links, order[0], base), order[1..], base)
  }

  function MoveNotes(notes: map<int, int>, child: int, base: int): map<int, int> {
    map id | id in notes :: if notes[id] == child then base else notes[id]
  }

  function MoveTaggings(taggings: map<int, Tagging>, child: int, base: int): map<int, Tagging> {
    map id | id in taggings ::
      if taggings[id].target == OnContact(child) then taggings[id].(target := OnContact(base)) else taggings[id]
  }

  function Inherit<T>(own: Option<T>, other: Option<T>): Option<T> {
    if own.Some? then own else other
  }

  function Combined(base: Contact, child: Contact): Contact {
    Contact(
      base.account,
      if base.name.GetOr("") != "" then base.name else child.name,
      Inherit(base.email, child.email),
      Inherit(base.phone, child.phone),
      Some(child.custom.GetOr(map[]) + base.custom.GetOr(map[])),
      Some(child.additional.GetOr(map[]) + base.additional.GetOr(map[])),
      Inherit(base.lastActivity, child.lastActivity))
  }

  /** The unique index on (email, account) lets the row be written. */
  predicate EmailFree(contacts: map<int, Contact>, id: int, c: Contact) {
    c.email.Some? ==> forall other | other in contacts && other != id ::
      !(contacts[other].account == c.account && contacts[other].email == c.email)
  }

  predicate Owned(s: Store, account: int, id: int) {
    id in s.contacts && s.contacts[id].account == account
  }

  predicate Enumerates(order: seq<int>, links: map<int, Link>, contact: int) {
    && (forall i, j | 0 <= i < j < |order| :: order[i] != order[j])
    && (forall i | 0 <= i < |order| :: order[i] in links && links[order[i]].contact == Some(contact))
    && (forall id | id in links && links[id].contact == Some(contact) :: id in order)
  }

  function Merge(s: Store, account: int, base: int, child: int, order: seq<int>): (Store, Result)
    requires Enumerates(order, s.links, child)
  {
    if base == child then (s, SameContact)
    else if !Owned(s, account, base) || !Owned(s, account, child) then (s, NotFound)
    else
      var combined := Combined(s.contacts[base], s.contacts[child]);
      if !EmailFree(s.contacts, base, combined) then (s, EmailTaken)
      else
        (Store(s.contacts[base := combined] - {child},
               MoveLinks(s.links, order, base),
               MoveNotes(s.notes, child, base),
               MoveTaggings(s.taggings, child, base)),
         Merged)
  }

  /** No two contacts of an account have the same e-mail address. */
  predicate EmailsUnique(contacts: map<int, Contact>) {
    forall a, b | a in contacts && b in contacts && a != b && contacts[a].account == contacts[b].account ::
      contacts[a].email.Some? ==> contacts[a].email != contacts[b].email
  }

  // ---- When the merge commits ----

  /** The transaction aborts exactly when the base has no e-mail address and the child has
      one: the address is copied while the child's row still holds it. */
  lemma AbortsIff(s: Store, account: int, base: int, child: int, order: seq<int>)
    requires EmailsUnique(s.contacts) && Enumerates(order, s.links, child)
    requires base != child && Owned(s, account, base) && Owned(s, account, child)
    ensures var (next, result) := Merge(s, account, base, child, order);
            && (result == EmailTaken <==> s.contacts[base].email.None? && s.contacts[child].email.Some?)
            && (result == Merged <==> result != EmailTaken)
            && (result == EmailTaken ==> next == s)
  {
  }

  /** The two refusals before the transaction, which change nothing. */
  lemma RefusesIff(s: Store, account: int, base: int, child: int, order: seq<int>)
    requires Enumerates(order, s.links, child)
    ensures var (next, result) := Merge(s, account, base, child, order);
            var both := forall id | id in {base, child} :: id in s.contacts && s.contacts[id].account == account;
            && (result == SameContact <==> base == child)
            && (result == NotFound <==> base != child && !both)
            && (result in {SameContact, NotFound} ==> next == s)
  {
    assert base in {base, child} && child in {base, child};
  }

  // ---- Links ----

  /** Link order[k] stays behind: the base, or an earlier link of the child, has its inbox. */
  predicate StaysBehind(links: map<int, Link>, order: seq<int>, base: int, k: nat)
    requires k < |order| && forall i | 0 <= i < |order| :: order[i] in links
  {
    var inbox := links[order[k]].inbox;
    inbox.Some? && (Linked(links, base, inbox.value) || exists j | 0 <= j < k :: links[order[j]].inbox == inbox)
  }

  lemma LinkedAfterMove(links: map<int, Link>, id: int, base: int, inbox: int)
    requires id in links && links[id].contact != Some(base)
    ensures Linked(MoveLink(links, id, base), base, inbox)
       <==> Linked(links, base, inbox) || links[id].inbox == Some(inbox)
  {
    var moved := MoveLink(links, id, base);
    if Linked(links, base, inbox) {
      var own :| own in links && IsLink(links, own, base, inbox);
      assert IsLink(moved, own, base, inbox);
    } else if links[id].inbox == Some(inbox) {
      assert IsLink(moved, id, base, inbox);
    }
    if Linked(moved, base, inbox) {
      var own :| own in moved && IsLink(moved, own, base, inbox);
      assert IsLink(links, own, base, inbox) || (own == id && links[id].inbox == Some(inbox));
    }
  }

  lemma StaysAfterMove(links: map<int, Link>, order: seq<int>, base: int, k: nat)
    requires 0 < k < |order|
    requires forall i | 0 <= i < |order| :: order[i] in links && links[order[i]].contact != Some(base)
    requires forall i, j | 0 <= i < j < |order| :: order[i] != order[j]
    ensures var moved := MoveLink(links, order[0], base);
            StaysBehind(moved, order[1..], base, k - 1) <==> StaysBehind(links, order, base, k)
  {
    var moved, rest := MoveLink(links, order[0], base), order[1..];
    var inbox := links[order[k]].inbox;
    if inbox.Some? {
      LinkedAfterMove(links, order[0], base, inbox.value);
      assert forall i | 0 <= i < |rest| :: rest[i] == order[i + 1] && moved[rest[i]] == links[rest[i]];
      if j :| 0 <= j < k && links[order[j]].inbox == inbox {
        if j > 0 {
          assert moved[rest[j - 1]].inbox == inbox;
        }
      }
      if j :| 0 <= j < k - 1 && moved[rest[j]].inbox == inbox {
        assert links[order[j + 1]].inbox == inbox;
      }
    }
  }

  /** Exactly which of the child's links move; no other link changes. */
  lemma {:induction false} LinksMoved(links: map<int, Link>, order: seq<int>, base: int)
    requires forall i | 0 <= i < |order| :: order[i] in links && links[order[i]].contact != Some(base)
    requires forall i, j | 0 <= i < j < |order| :: order[i] != order[j]
    ensures var after := MoveLinks(links, order, base);
            && (forall id | id in links && id !in order :: after[id] == links[id])
            && (forall k | 0 <= k < |order| ::
                  after[order[k]] == if StaysBehind(links, order, base, k) then links[order[k]]
                                     else links[order[k]].(contact := Some(base)))
  {
    if order != [] {
      var moved, rest := MoveLink(links, order[0], base), order[1..];
      assert forall i | 0 <= i < |rest| :: rest[i] == order[i + 1] && moved[rest[i]] == links[rest[i]];
      LinksMoved(moved, rest, base);
      assert order[0] !in rest;
      var after := MoveLinks(links, order, base);
      forall k | 0 <= k < |order|
        ensures after[order[k]] == if StaysBehind(links, order, base, k) then links[order[k]]
                                   else links[order[k]].(contact := Some(base))
      {
        if k > 0 {
          StaysAfterMove(links, order, base, k);
          assert order[k] == rest[k - 1];
        }
      }
      forall id | id in links && id !in order ensures after[id] == links[id] {
        assert id !in rest;
      }
    }
  }

  ghost predicate OneLinkPerInbox(links: map<int, Link>, contact: int) {
    forall i, j, inbox: int | IsLink(links, i, contact, inbox) && IsLink(links, j, contact, inbox) :: i == j
  }

  /** Links are never lost nor rewritten except for moving from child to base; those of the
      base and of other contacts stay as they are. */
  lemma LinksConserved(links: map<int, Link>, order: seq<int>, base: int, child: int, id: int)
    requires base != child && Enumerates(order, links, child) && id in links
    ensures var after := MoveLinks(links, order, base);
            && after[id] in {links[id], links[id].(contact := Some(base))}
            && (links[id].contact != Some(child) ==> after[id] == links[id])
            && (links[id].contact == Some(child) && links[id].inbox.None? ==> after[id].contact == Some(base))
  {
    LinksMoved(links, order, base);
    if id in order {
      var k :| 0 <= k < |order| && order[k] == id;
    }
  }

  lemma {:induction false} FirstWithInbox(links: map<int, Link>, order: seq<int>, base: int, inbox: int, k: nat)
    requires forall i | 0 <= i < |order| :: order[i] in links && links[order[i]].contact != Some(base)
    requires forall i, j | 0 <= i < j < |order| :: order[i] != order[j]
    requires k < |order| && links[order[k]].inbox == Some(inbox) && !Linked(links, base, inbox)
    ensures Linked(MoveLinks(links, order, base), base, inbox)
  {
    LinksMoved(links, order, base);
    if StaysBehind(links, order, base, k) {
      var j: nat :| j < k && links[order[j]].inbox == Some(inbox);
      FirstWithInbox(links, order, base, inbox, j);
    } else {
      assert IsLink(MoveLinks(links, order, base), order[k], base, inbox);
    }
  }

  /** The base ends up in exactly the inboxes that either contact was in. */
  lemma InboxesUnite(links: map<int, Link>, order: seq<int>, base: int, child: int, inbox: int)
    requires base != child && Enumerates(order, links, child)
    ensures Linked(MoveLinks(links, order, base), base, inbox)
       <==> Linked(links, base, inbox) || Linked(links, child, inbox)
  {
    LinksMoved(links, order, base);
    var after := MoveLinks(links, order, base);
    if Linked(links, base, inbox) {
      var own :| own in links && IsLink(links, own, base, inbox);
      assert IsLink(after, own, base, inbox);
    } else if Linked(links, child, inbox) {
      var id :| id in links && IsLink(links, id, child, inbox);
      var k :| 0 <= k < |order| && order[k] == id;
      FirstWithInbox(links, order, base, inbox, k);
    }
    if Linked(after, base, inbox) {
      var own :| own in after && IsLink(after, own, base, inbox);
      LinksConserved(links, order, base, child, own);
      assert IsLink(links, own, base, inbox) || IsLink(links, own, child, inbox);
    }
  }

  /** If the base had at most one link per inbox, it still has. */
  lemma OneLinkPerInboxKept(links: map<int, Link>, order: seq<int>, base: int, child: int)
    requires base != child && Enumerates(order, links, child) && OneLinkPerInbox(links, base)
    ensures OneLinkPerInbox(MoveLinks(links, order, base), base)
  {
    var after := MoveLinks(links, order, base);
    LinksMoved(links, order, base);
    forall i, j, inbox: int | IsLink(after, i, base, inbox) && IsLink(after, j, base, inbox) ensures i == j {
      if i !in order && j !in order {
        assert IsLink(links, i, base, inbox) && IsLink(links, j, base, inbox);
      } else if i in order && j in order {
        var a :| 0 <= a < |order| && order[a] == i;
        var b :| 0 <= b < |order| && order[b] == j;
        assert !StaysBehind(links, order, base, a) && !StaysBehind(links, order, base, b);
      } else {
        var (own, moved) := if i in order then (j, i) else (i, j);
        assert IsLink(links, own, base, inbox);
        assert false;
      }
    }
  }

  // ---- Notes, taggings and attributes ----

  ghost function NotesOf(notes: map<int, int>, contact: int): set<int> {
    set id | id in notes && notes[id] == contact
  }

  ghost function TaggingsOf(taggings: map<int, Tagging>, target: Taggable): set<int> {
    set id | id in taggings && taggings[id].target == target
  }

  /** All notes and contact taggings of the child now belong to the base; none is lost, and
      those of other contacts and of conversations stay. */
  lemma NotesAndTagsConserved(s: Store, base: int, child: int, other: int)
    requires base != child && other != base && other != child
    ensures var notes := MoveNotes(s.notes, child, base);
            && notes.Keys == s.notes.Keys
            && NotesOf(notes, base) == NotesOf(s.notes, base) + NotesOf(s.notes, child)
            && |NotesOf(notes, base)| == |NotesOf(s.notes, base)| + |NotesOf(s.notes, child)|
            && NotesOf(notes, child) == {}
            && NotesOf(notes, other) == NotesOf(s.notes, other)
    ensures var taggings := MoveTaggings(s.taggings, child, base);
            && taggings.Keys == s.taggings.Keys
            && (forall id | id in taggings :: taggings[id].tag == s.taggings[id].tag)
            && TaggingsOf(taggings, OnContact(base))
               == TaggingsOf(s.taggings, OnContact(base)) + TaggingsOf(s.taggings, OnContact(child))
            && |TaggingsOf(taggings, OnContact(base))|
               == |TaggingsOf(s.taggings, OnContact(base))| + |TaggingsOf(s.taggings, OnContact(child))|
            && TaggingsOf(taggings, OnContact(child)) == {}
            && TaggingsOf(taggings, OnContact(other)) == TaggingsOf(s.taggings, OnContact(other))
            && TaggingsOf(taggings, OnConversation(child)) == TaggingsOf(s.taggings, OnConversation(child))
  {
    var notes, taggings := MoveNotes(s.notes, child, base), MoveTaggings(s.taggings, child, base);
    assert NotesOf(notes, base) == NotesOf(s.notes, base) + NotesOf(s.notes, child);
    assert NotesOf(s.notes, base) !! NotesOf(s.notes, child);
    assert TaggingsOf(taggings, OnContact(base))
        == TaggingsOf(s.taggings, OnContact(base)) + TaggingsOf(s.taggings, OnContact(child));
    assert TaggingsOf(s.taggings, OnContact(base)) !! TaggingsOf(s.taggings, OnContact(child));
  }

  predicate UnionFavouring(out: Attributes, own: Attributes, other: Attributes) {
    && out.Keys == own.Keys + other.Keys
    && (forall k | k in own :: out[k] == own[k])
    && (forall k | k in other && k !in own :: out[k] == other[k])
  }

  /** The base keeps every value it has and inherits the rest; the child is gone, every
      other contact is as before, and e-mail addresses stay unique. */
  lemma ContactsCombined(s: Store, account: int, base: int, child: int, order: seq<int>)
    requires Enumerates(order, s.links, child) && EmailsUnique(s.contacts)
    requires Merge(s, account, base, child, order).1 == Merged
    ensures var b, c, after := s.contacts[base], s.contacts[child], Merge(s, account, base, child, order).0.contacts;
            && after.Keys == s.contacts.Keys - {child} && base in after
            && (forall id | id in after && id != base :: after[id] == s.contacts[id])
            && EmailsUnique(after)
            && after[base].email == b.email
            && after[base].account == b.account
            && after[base].phone == (if b.phone.Some? then b.phone else c.phone)
            && after[base].lastActivity == (if b.lastActivity.Some? then b.lastActivity else c.lastActivity)
            && after[base].name == (if b.name == None || b.name == Some("") then c.name else b.name)
            && after[base].custom.Some? && after[base].additional.Some?
            && UnionFavouring(after[base].custom.value, b.custom.GetOr(map[]), c.custom.GetOr(map[]))
            && UnionFavouring(after[base].additional.value, b.additional.GetOr(map[]), c.additional.GetOr(map[]))
  {
  }

  // ---- The service ----

  class ContactService {
    var contacts: map<int, Contact>
    var contactInboxes: map<int, Link>
    var notes: map<int, int>
    var taggings: map<int, Tagging>

    function Value(): Store
      reads this
    {
      Store(contacts, contactInboxes, notes, taggings)
    }

    constructor (s: Store)
      ensures Value() == s
    {
      contacts, contactInboxes, notes, taggings := s.contacts, s.links, s.notes, s.taggings;
    }

    method MergeContacts(account: int, base: int, child: int, childInboxes: seq<int>) returns (result: Result)
      requires Enumerates(childInboxes, contactInboxes, child)
      modifies this
      ensures (Value(), result) == Merge(old(Value()), account, base, child, childInboxes)
    {
      if base == child {
        return SameContact;
      }
      if !Owned(Value(), account, base) || !Owned(Value(), account, child) {
        return NotFound;
      }
      var links, notesBefore, taggingsBefore := contactInboxes, notes, taggings;
      for i := 0 to |childInboxes|
        invariant contactInboxes.Keys == links.Keys
        invariant MoveLinks(contactInboxes, childInboxes[i..], base) == MoveLinks(links, childInboxes, base)
        invariant contacts == old(contacts) && notes == old(notes) && taggings == old(taggings)
      {
        var id := childInboxes[i];
        assert childInboxes[i..][0] == id && childInboxes[i..][1..] == childInboxes[i + 1..];
        if !Clashes(contactInboxes, contactInboxes[id].inbox, base) {
          contactInboxes := contactInboxes[id := contactInboxes[id].(contact := Some(base))];
        }
      }
      notes := map id | id in notes :: if notes[id] == child then base else notes[id];
      taggings := map id | id in taggings ::
        if taggings[id].target == OnContact(child) then taggings[id].(target := OnContact(base)) else taggings[id];
      var combined := Combined(contacts[base], contacts[child]);
      if !EmailFree(contacts, base, combined) {
        // The transaction rolls back.
        contactInboxes, notes, taggings := links, notesBefore, taggingsBefore;
        return EmailTaken;
      }
      contacts := contacts[base := combined];
      contacts := contacts - {child};
      result := Merged;
    }
  }
}
