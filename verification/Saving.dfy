/** Saving messages (`save_email`, `save_imessage` of core/storage.py, and core/cas.py), as functions
    on the tables, and what every interleaving of committed steps preserves. */
module Saving {
  import opened Prelude
  import opened Schema
  import opened Identity

  datatype Blob = Blob(filename: string, content: Bytes, mimeType: Option<string>)

  datatype EmailMessage = EmailMessage(
    account: nat, externalId: string, sentAt: string, outbound: bool,
    fromAddress: string, toAddresses: seq<string>, ccAddresses: seq<string>, bccAddresses: seq<string>,
    subject: string, bodyText: string, uid: nat, mailbox: string, blobs: seq<Blob>)

  datatype IMessage = IMessage(
    account: nat, externalId: string, sentAt: string, outbound: bool,
    senderHandle: string, chatGuid: string, participants: seq<string>,
    bodyText: string, service: string, isRead: bool, blobs: seq<Blob>)

  /** Someone a message mentions, and in which role. */
  datatype Party = Party(contact: Contact, role: Role)

  /** A message of either source, ready to be stored. */
  datatype Incoming = Incoming(
    account: nat, externalId: string, sentAt: string, bodyText: string, outbound: bool,
    detail: Detail, parties: seq<Party>, blobs: seq<Blob>)

  datatype Outcome = Inserted(id: nat) | Skipped(id: nat) | Refused(error: Failure)

  // ---------------------------------------------------------------- who a message mentions

  function EmailContact(x: Library, raw: string): Contact {
    var (addr, display) := x.splitAddress(raw);
    var (name, surname) := x.splitDisplayName(display);
    Contact(Ident(EmailKind, x.norm(EmailKind, addr)), name, surname)
  }

  function HandleContact(x: Library, handle: string): Contact {
    var kind := x.handleKind(handle);
    var (name, surname) := x.splitDisplayName(None);
    Contact(Ident(kind, x.norm(kind, handle)), name, surname)
  }

  function EmailParties(x: Library, addresses: seq<string>, role: Role): (ps: seq<Party>)
    ensures |ps| == |addresses|
  {
    seq(|addresses|, k requires 0 <= k < |addresses| => Party(EmailContact(x, addresses[k]), role))
  }

  function HandleParties(x: Library, handles: seq<string>, role: Role): (ps: seq<Party>)
    ensures |ps| == |handles|
  {
    seq(|handles|, k requires 0 <= k < |handles| => Party(HandleContact(x, handles[k]), role))
  }

  /** `_email_address_roles`: the sender, then to, cc and bcc. */
  function FromEmail(x: Library, m: EmailMessage): (i: Incoming)
    ensures OneFrom(i)
  {
    Incoming(m.account, m.externalId, m.sentAt, m.bodyText, m.outbound,
             EmailDetails(m.uid, m.mailbox, m.subject),
             EmailParties(x, [m.fromAddress], From) + EmailParties(x, m.toAddresses, To)
               + EmailParties(x, m.ccAddresses, Cc) + EmailParties(x, m.bccAddresses, Bcc),
             m.blobs)
  }

  function FromIMessage(x: Library, m: IMessage): (i: Incoming)
    ensures OneFrom(i)
  {
    Incoming(m.account, m.externalId, m.sentAt, m.bodyText, m.outbound,
             IMessageDetails(m.chatGuid, m.service, m.isRead),
             HandleParties(x, [m.senderHandle], From) + HandleParties(x, m.participants, Participant),
             m.blobs)
  }

  function FromEmails(x: Library, ms: seq<EmailMessage>): (r: seq<Incoming>)
    ensures |r| == |ms|
  {
    seq(|ms|, k requires 0 <= k < |ms| => FromEmail(x, ms[k]))
  }

  /** Those mentioned in a role, in order. */
  function InRole(ps: seq<Party>, role: Role): seq<Contact>
    decreases |ps|
  {
    if ps == [] then [] else
      var front, last := InRole(ps[..|ps| - 1], role), ps[|ps| - 1];
      if last.role == role then front + [last.contact] else front
  }

  function EmailContacts(x: Library, addresses: seq<string>): (cs: seq<Contact>)
    ensures |cs| == |addresses|
  {
    seq(|addresses|, k requires 0 <= k < |addresses| => EmailContact(x, addresses[k]))
  }

  function HandleContacts(x: Library, handles: seq<string>): (cs: seq<Contact>)
    ensures |cs| == |handles|
  {
    seq(|handles|, k requires 0 <= k < |handles| => HandleContact(x, handles[k]))
  }

  lemma {:induction false} InRoleConcat(a: seq<Party>, b: seq<Party>, role: Role)
    ensures InRole(a + b, role) == InRole(a, role) + InRole(b, role)
    decreases |b|
  {
    if b == [] {
      assert a + b == a;
    } else {
      InRoleConcat(a, b[..|b| - 1], role);
      assert (a + b)[..|a + b| - 1] == a + b[..|b| - 1];
    }
  }

  lemma {:induction false} AllInRole(ps: seq<Party>, own: Role, role: Role)
    requires forall k :: 0 <= k < |ps| ==> ps[k].role == own
    ensures InRole(ps, role) == if role == own then Contacts(ps) else []
    decreases |ps|
  {
    if ps != [] {
      AllInRole(ps[..|ps| - 1], own, role);
      assert Contacts(ps) == Contacts(ps[..|ps| - 1]) + [ps[|ps| - 1].contact];
    }
  }

  lemma {:induction false} PartiesInRole(x: Library, addresses: seq<string>, own: Role, role: Role)
    ensures InRole(EmailParties(x, addresses, own), role) == if role == own then EmailContacts(x, addresses) else []
  {
    AllInRole(EmailParties(x, addresses, own), own, role);
    assert Contacts(EmailParties(x, addresses, own)) == EmailContacts(x, addresses);
  }

  lemma {:induction false} HandlesInRole(x: Library, handles: seq<string>, own: Role, role: Role)
    ensures InRole(HandleParties(x, handles, own), role) == if role == own then HandleContacts(x, handles) else []
  {
    AllInRole(HandleParties(x, handles, own), own, role);
    assert Contacts(HandleParties(x, handles, own)) == HandleContacts(x, handles);
  }

  lemma {:induction false} FourInRole(a: seq<Party>, b: seq<Party>, c: seq<Party>, d: seq<Party>, role: Role)
    ensures InRole(a + b + c + d, role) == InRole(a, role) + InRole(b, role) + InRole(c, role) + InRole(d, role)
  {
    InRoleConcat(a + b + c, d, role);
    InRoleConcat(a + b, c, role);
    InRoleConcat(a, b, role);
  }

  /** The texts in the header of that role. */
  function Header(m: EmailMessage, role: Role): seq<string> {
    match role
    case From => [m.fromAddress]
    case To => m.toAddresses
    case Cc => m.ccAddresses
    case Bcc => m.bccAddresses
    case Participant => []
  }

  /** The handles that take part in that role. */
  function Handles(m: IMessage, role: Role): seq<string> {
    match role
    case From => [m.senderHandle]
    case Participant => m.participants
    case _ => []
  }

  /** The contact a header text stands for: its normalised address, and its display name. */
  ghost predicate IsAddress(x: Library, raw: string, c: Contact) {
    && c.ident == Ident(EmailKind, x.norm(EmailKind, x.splitAddress(raw).0))
    && c.name == x.splitDisplayName(x.splitAddress(raw).1).0
    && c.surname == x.splitDisplayName(x.splitAddress(raw).1).1
  }

  ghost predicate IsHandle(x: Library, handle: string, c: Contact) {
    && c.ident == Ident(x.handleKind(handle), x.norm(x.handleKind(handle), handle))
    && c.name == x.splitDisplayName(None).0 && c.surname == x.splitDisplayName(None).1
  }

  lemma {:induction false} OnlyOne(a: seq<Contact>, b: seq<Contact>, c: seq<Contact>, d: seq<Contact>)
    ensures b == [] && c == [] && d == [] ==> a + b + c + d == a
    ensures a == [] && c == [] && d == [] ==> a + b + c + d == b
    ensures a == [] && b == [] && d == [] ==> a + b + c + d == c
    ensures a == [] && b == [] && c == [] ==> a + b + c + d == d
  {
  }

  lemma {:induction false} MailInRole(x: Library, m: EmailMessage, role: Role)
    ensures InRole(FromEmail(x, m).parties, role) == EmailContacts(x, Header(m, role))
  {
    var f, t := EmailParties(x, [m.fromAddress], From), EmailParties(x, m.toAddresses, To);
    var c, b := EmailParties(x, m.ccAddresses, Cc), EmailParties(x, m.bccAddresses, Bcc);
    assert FromEmail(x, m).parties == f + t + c + b;
    FourInRole(f, t, c, b, role);
    PartiesInRole(x, [m.fromAddress], From, role);
    PartiesInRole(x, m.toAddresses, To, role);
    PartiesInRole(x, m.ccAddresses, Cc, role);
    PartiesInRole(x, m.bccAddresses, Bcc, role);
    OnlyOne(InRole(f, role), InRole(t, role), InRole(c, role), InRole(b, role));
  }

  /** A mail mentions exactly its addresses, each in the role of its header and in order. */
  lemma {:induction false} FromEmailMentions(x: Library, m: EmailMessage, role: Role)
    ensures var cs := InRole(FromEmail(x, m).parties, role);
            |cs| == |Header(m, role)| && forall k :: 0 <= k < |cs| ==> IsAddress(x, Header(m, role)[k], cs[k])
  {
    MailInRole(x, m, role);
  }

  lemma {:induction false} ChatInRole(x: Library, m: IMessage, role: Role)
    ensures InRole(FromIMessage(x, m).parties, role) == HandleContacts(x, Handles(m, role))
  {
    var f, p := HandleParties(x, [m.senderHandle], From), HandleParties(x, m.participants, Participant);
    InRoleConcat(f, p, role);
    HandlesInRole(x, [m.senderHandle], From, role);
    HandlesInRole(x, m.participants, Participant, role);
  }

  /** An iMessage mentions exactly its sender and its participants, in order. */
  lemma {:induction false} FromIMessageMentions(x: Library, m: IMessage, role: Role)
    ensures var cs := InRole(FromIMessage(x, m).parties, role);
            |cs| == |Handles(m, role)| && forall k :: 0 <= k < |cs| ==> IsHandle(x, Handles(m, role)[k], cs[k])
  {
    ChatInRole(x, m, role);
  }

  /** The first party is the sender, and the only one. */
  ghost predicate OneFrom(m: Incoming) {
    && m.parties != [] && m.parties[0].role == From
    && (forall k :: 0 < k < |m.parties| ==> m.parties[k].role != From)
  }

  function Contacts(ps: seq<Party>): (cs: seq<Contact>)
    ensures |cs| == |ps|
  {
    seq(|ps|, k requires 0 <= k < |ps| => ps[k].contact)
  }

  // ---------------------------------------------------------------- the steps of a save

  /** `CASStore.write`: put if absent, under the hash of the content. */
  function WriteBlob(x: Library, s: Store, content: Bytes): Store {
    if x.hash(content) in s.blobs then s else s.(blobs := s.blobs[x.hash(content) := content])
  }

  function WriteBlobs(x: Library, s: Store, blobs: seq<Blob>): Store
    decreases |blobs|
  {
    if blobs == [] then s else
      WriteBlob(x, WriteBlobs(x, s, blobs[..|blobs| - 1]), blobs[|blobs| - 1].content)
  }

  function MessagesNamed(messages: map<nat, Message>, account: nat, externalId: string): set<nat> {
    set m | m in messages && messages[m].account == account && messages[m].externalId == externalId
  }

  /** The row a message becomes under an account of the given source. */
  function RowOf(source: string, m: Incoming): Message {
    Message(m.account, source, m.externalId, m.sentAt, m.bodyText, m.outbound, m.detail)
  }

  function RoleRows(id: nat, pids: seq<nat>, parties: seq<Party>): set<RoleRow>
    requires |pids| == |parties|
  {
    set k | 0 <= k < |pids| :: RoleRow(id, pids[k], parties[k].role)
  }

  function AttachmentRow(x: Library, id: nat, b: Blob): Attachment {
    Attachment(id, b.filename, x.hash(b.content), b.mimeType, |b.content|)
  }

  function AttachmentRows(x: Library, id: nat, blobs: seq<Blob>): (rows: seq<Attachment>)
    ensures |rows| == |blobs|
  {
    seq(|blobs|, k requires 0 <= k < |blobs| => AttachmentRow(x, id, blobs[k]))
  }

  /** The transaction of a save: skip a known (account, external id), refuse an unknown account or
      a person who has meanwhile gone, else insert the message and its rows. */
  function InsertMessage(x: Library, s: Store, m: Incoming, pids: seq<nat>): (Store, Outcome)
    requires |pids| == |m.parties|
  {
    var found := MessagesNamed(s.messages, m.account, m.externalId);
    if found != {} then (s, Skipped(MaxOf(found)))
    else if m.account !in s.accounts then (s, Refused(UnknownAccount))
    else if exists k :: 0 <= k < |pids| && pids[k] !in s.people then (s, Refused(ForeignKey))
    else
      var id := NextId(s.messages.Keys);
      (s.(messages := s.messages[id := RowOf(s.accounts[m.account].source, m)],
          roles := s.roles + RoleRows(id, pids, m.parties),
          attachments := s.attachments + AttachmentRows(x, id, m.blobs)), Inserted(id))
  }

  /** A whole save: attachment files, then people, then the transaction. */
  function SaveMessage(x: Library, s: Store, m: Incoming): (Store, Outcome) {
    var (t, pids) := FindOrCreateAll(WriteBlobs(x, s, m.blobs), Contacts(m.parties));
    InsertMessage(x, t, m, pids)
  }

  // ---------------------------------------------------------------- what one step keeps

  lemma {:induction false} NewRowsOneSender(x: Library, s: Store, m: Incoming, pids: seq<nat>)
    requires ForeignKeys(s) && OneSender(s) && OneFrom(m)
    requires |pids| == |m.parties|
    requires InsertMessage(x, s, m, pids).1.Inserted?
    ensures OneSender(InsertMessage(x, s, m, pids).0)
  {
    var (t, o) := InsertMessage(x, s, m, pids);
    var id := o.id;
    forall n, p | IsSender(t, n, p) ensures if n == id then p == pids[0] else IsSender(s, n, p) {
      var r := RoleRow(n, p, From);
      if r in s.roles {
        assert r.message in s.messages;
      } else {
        var k :| 0 <= k < |pids| && r == RoleRow(id, pids[k], m.parties[k].role);
        assert k == 0;
      }
    }
    forall n | n in t.messages ensures exists p :: IsSender(t, n, p) {
      if n == id {
        assert RoleRow(id, pids[0], m.parties[0].role) in RoleRows(id, pids, m.parties);
        assert IsSender(t, id, pids[0]);
      } else {
        var p :| IsSender(s, n, p);
        assert IsSender(t, n, p);
      }
    }
  }

  lemma {:induction false} NewMessageIsUnique(s: Store, row: Message, id: nat, t: Store)
    requires UniqueKeys(s) && id !in s.messages
    requires MessagesNamed(s.messages, row.account, row.externalId) == {}
    requires t.accounts == s.accounts && t.messages == s.messages[id := row]
    ensures UniqueKeys(t)
  {
    forall a, b | a in t.messages && b in t.messages && SameMessage(t.messages[a], t.messages[b]) ensures a == b {
      assert a in s.messages && SameMessage(s.messages[a], row) ==>
          a in MessagesNamed(s.messages, row.account, row.externalId);
      assert b in s.messages && SameMessage(s.messages[b], row) ==>
          b in MessagesNamed(s.messages, row.account, row.externalId);
    }
  }

  lemma {:induction false} InsertKeepsRefs(x: Library, s: Store, m: Incoming, pids: seq<nat>)
    requires ForeignKeys(s)
    requires |pids| == |m.parties|
    ensures ForeignKeys(InsertMessage(x, s, m, pids).0)
  {
    var (t, o) := InsertMessage(x, s, m, pids);
    if o.Inserted? {
      forall r | r in t.roles ensures r.message in t.messages && r.person in t.people {
        if r !in s.roles {
          var k :| 0 <= k < |pids| && r == RoleRow(o.id, pids[k], m.parties[k].role);
          assert pids[k] in s.people;
        }
      }
    }
  }

  lemma {:induction false} InsertKeepsValid(x: Library, s: Store, m: Incoming, pids: seq<nat>)
    requires Valid(s) && OneFrom(m)
    requires |pids| == |m.parties|
    ensures Valid(InsertMessage(x, s, m, pids).0)
  {
    var (t, o) := InsertMessage(x, s, m, pids);
    InsertKeepsRefs(x, s, m, pids);
    if o.Inserted? {
      NewRowsOneSender(x, s, m, pids);
      NewMessageIsUnique(s, RowOf(s.accounts[m.account].source, m), o.id, t);
    }
  }

  lemma {:induction false} InsertStoresRoles(x: Library, s: Store, m: Incoming, pids: seq<nat>, row: RoleRow)
    requires ForeignKeys(s) && |pids| == |m.parties| && InsertMessage(x, s, m, pids).1.Inserted?
    requires row.message == InsertMessage(x, s, m, pids).1.id
    ensures row in InsertMessage(x, s, m, pids).0.roles
       <==> exists k :: 0 <= k < |pids| && row.person == pids[k] && row.role == m.parties[k].role
  {
    var id := InsertMessage(x, s, m, pids).1.id;
    assert row !in s.roles;
    if k :| 0 <= k < |pids| && row.person == pids[k] && row.role == m.parties[k].role {
      assert RoleRow(id, pids[k], m.parties[k].role) in RoleRows(id, pids, m.parties);
    }
  }

  lemma {:induction false} ContactsResolve(x: Library, s: Store, m: Incoming)
    requires Valid(s)
    ensures var (v, pids) := FindOrCreateAll(WriteBlobs(x, s, m.blobs), Contacts(m.parties));
            Valid(v) && forall k :: 0 <= k < |pids| ==> ResolvesTo(v, m.parties[k].contact.ident, pids[k])
  {
    var u, cs := WriteBlobs(x, s, m.blobs), Contacts(m.parties);
    FilesOnly(x, s, m.blobs);
    SameRolesSameSender(s, u);
    FindOrCreateAllExtends(u, cs);
    var (v, pids) := FindOrCreateAll(u, cs);
    forall k | 0 <= k < |pids| ensures ResolvesTo(v, m.parties[k].contact.ident, pids[k]) {
      assert ResolvesTo(v, cs[k].ident, pids[k]);
    }
  }

  /** The roles of a message just saved are those of the people its contacts resolve to, no more and no
      fewer. */
  lemma {:induction false} SaveStoresRoles(x: Library, s: Store, m: Incoming, row: RoleRow)
    requires Valid(s) && SaveMessage(x, s, m).1.Inserted? && row.message == SaveMessage(x, s, m).1.id
    ensures var t := SaveMessage(x, s, m).0;
            row in t.roles
            <==> exists k :: (0 <= k < |m.parties| && ResolvesTo(t, m.parties[k].contact.ident, row.person)
                              && row.role == m.parties[k].role)
  {
    ContactsResolve(x, s, m);
    var (v, pids) := FindOrCreateAll(WriteBlobs(x, s, m.blobs), Contacts(m.parties));
    InsertStoresRoles(x, v, m, pids, row);
    var t := InsertMessage(x, v, m, pids).0;
    assert t.identifiers == v.identifiers && t.people == v.people;
    forall k | 0 <= k < |pids|
      ensures ResolvesTo(t, m.parties[k].contact.ident, row.person) <==> row.person == pids[k]
    {
      assert ResolvesTo(v, m.parties[k].contact.ident, pids[k]);
    }
  }

  lemma {:induction false} FilesOnly(x: Library, s: Store, blobs: seq<Blob>)
    ensures WriteBlobs(x, s, blobs) == s.(blobs := WriteBlobs(x, s, blobs).blobs)
    decreases |blobs|
  {
    if blobs != [] { FilesOnly(x, s, blobs[..|blobs| - 1]); }
  }
}
