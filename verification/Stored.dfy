/** What a save leaves in the tables, read off the message as it arrived: its row, its files, the people in
    its headers, and how all of that fares in any history afterwards. */
module Stored {
  import opened Prelude
  import opened Schema
  import opened Identity
  import opened Saving
  import opened History

  // ---------------------------------------------------------------- the rows of one transaction

  /** The attachment rows from `n` on are those of the files, in order. */
  ghost predicate FilesAt(x: Library, rows: seq<Attachment>, n: nat, id: nat, blobs: seq<Blob>) {
    && n + |blobs| <= |rows|
    && (forall k :: 0 <= k < |blobs| ==>
          rows[n + k] == Attachment(id, blobs[k].filename, x.hash(blobs[k].content), blobs[k].mimeType,
                                    |blobs[k].content|))
  }

  /** From `s` to `t` one message has come in under `id`, with one attachment row a file, and the rows of
      other messages, the accounts and the status are as they were. */
  ghost predicate OneMessageMore(x: Library, s: Store, t: Store, id: nat, row: Message, blobs: seq<Blob>) {
    && id !in s.messages && (forall m :: m in s.messages ==> m < id)
    && t.messages == s.messages[id := row]
    && |t.attachments| == |s.attachments| + |blobs| && t.attachments[..|s.attachments|] == s.attachments
    && FilesAt(x, t.attachments, |s.attachments|, id, blobs)
    && (forall r: RoleRow :: r.message != id ==> (r in t.roles <==> r in s.roles))
    && t.accounts == s.accounts && t.status == s.status
  }

  /** `r` names the `k`-th party of the message in its role. */
  predicate NamesParty(r: RoleRow, pids: seq<nat>, parties: seq<Party>, k: nat) {
    k < |pids| && k < |parties| && r.person == pids[k] && r.role == parties[k].role
  }

  predicate NamedSo(s: Store, account: nat, externalId: string, id: nat) {
    id in s.messages && s.messages[id].account == account && s.messages[id].externalId == externalId
  }

  ghost predicate Known(s: Store, account: nat, externalId: string) {
    exists id :: NamedSo(s, account, externalId, id)
  }

  /** The transaction: a known message is reported, a new one of a missing account or person refused, any
      other stored, with a role row for each party. */
  lemma {:induction false} InsertIs(x: Library, s: Store, m: Incoming, pids: seq<nat>)
    requires |pids| == |m.parties|
    ensures var (t, o) := InsertMessage(x, s, m, pids);
            && (o.Skipped? <==> Known(s, m.account, m.externalId))
            && (o.Skipped? ==> NamedSo(s, m.account, m.externalId, o.id))
            && (o.Refused? <==> !Known(s, m.account, m.externalId)
                                && (m.account !in s.accounts || exists p :: p in pids && p !in s.people))
            && (o.Refused? ==> o.error == if m.account in s.accounts then ForeignKey else UnknownAccount)
            && (!o.Inserted? ==> t == s)
  {
    var found := MessagesNamed(s.messages, m.account, m.externalId);
    if id :| NamedSo(s, m.account, m.externalId, id) { assert id in found; }
    if found != {} { assert NamedSo(s, m.account, m.externalId, MaxOf(found)); }
    if k :| 0 <= k < |pids| && pids[k] !in s.people { assert pids[k] in pids; }
  }

  lemma {:induction false} InsertStores(x: Library, s: Store, m: Incoming, pids: seq<nat>)
    requires ForeignKeys(s) && |pids| == |m.parties| && InsertMessage(x, s, m, pids).1.Inserted?
    ensures var (t, o) := InsertMessage(x, s, m, pids);
            && m.account in s.accounts
            && OneMessageMore(x, s, t, o.id,
                              Message(m.account, s.accounts[m.account].source, m.externalId, m.sentAt, m.bodyText,
                                      m.outbound, m.detail), m.blobs)
            && t.people == s.people && t.identifiers == s.identifiers && t.blobs == s.blobs
  {
  }

  lemma {:induction false} InsertStoresRows(x: Library, s: Store, m: Incoming, pids: seq<nat>)
    requires ForeignKeys(s) && |pids| == |m.parties| && InsertMessage(x, s, m, pids).1.Inserted?
    ensures var (t, o) := InsertMessage(x, s, m, pids);
            forall r: RoleRow :: r.message == o.id ==>
              (r in t.roles <==> exists k: nat :: NamesParty(r, pids, m.parties, k))
  {
    var (t, o) := InsertMessage(x, s, m, pids);
    forall r: RoleRow | r.message == o.id
      ensures r in t.roles <==> exists k: nat :: NamesParty(r, pids, m.parties, k)
    {
      InsertStoresRoles(x, s, m, pids, r);
      if k :| 0 <= k < |pids| && r.person == pids[k] && r.role == m.parties[k].role {
        assert NamesParty(r, pids, m.parties, k);
      }
    }
  }

  /** The transaction of `m` has stored its row, a role row for each party and an attachment row for each
      file under `id`, and nothing else. */
  ghost predicate Transacted(x: Library, s: Store, t: Store, m: Incoming, pids: seq<nat>, id: nat) {
    && m.account in s.accounts
    && OneMessageMore(x, s, t, id, Message(m.account, s.accounts[m.account].source, m.externalId, m.sentAt, m.bodyText,
                                           m.outbound, m.detail), m.blobs)
    && (forall r: RoleRow :: r.message == id ==> (r in t.roles <==> exists k: nat :: NamesParty(r, pids, m.parties, k)))
    && t.people == s.people && t.identifiers == s.identifiers && t.blobs == s.blobs
  }

  lemma {:induction false} InsertTransacts(x: Library, s: Store, m: Incoming, pids: seq<nat>)
    requires ForeignKeys(s) && |pids| == |m.parties| && InsertMessage(x, s, m, pids).1.Inserted?
    ensures var (t, o) := InsertMessage(x, s, m, pids); Transacted(x, s, t, m, pids, o.id)
  {
    InsertStores(x, s, m, pids);
    InsertStoresRows(x, s, m, pids);
  }

  // ---------------------------------------------------------------- a whole save

  /** Everybody and every file of `s` is in `t`, unchanged, and no two identifiers have become one person. */
  ghost predicate NobodyJoined(s: Store, t: Store) {
    && (forall p :: p in s.people ==> p in t.people && t.people[p] == s.people[p])
    && (forall i :: i in s.identifiers ==> i in t.identifiers && t.identifiers[i] == s.identifiers[i])
    && SamePartition(s, t)
  }

  ghost predicate FilesKept(x: Library, s: Store, t: Store, blobs: seq<Blob>) {
    && (forall h :: h in s.blobs ==> h in t.blobs && t.blobs[h] == s.blobs[h])
    && (forall k :: 0 <= k < |blobs| ==> x.hash(blobs[k].content) in t.blobs)
  }

  lemma {:induction false} FilesWritten(x: Library, s: Store, blobs: seq<Blob>)
    ensures FilesKept(x, s, WriteBlobs(x, s, blobs), blobs)
    decreases |blobs|
  {
    if blobs != [] { FilesWritten(x, s, blobs[..|blobs| - 1]); }
  }

  /** The tables before the transaction of a save, and the people it has looked up. */
  ghost predicate LookedUp(x: Library, s: Store, m: Incoming, u: Store, pids: seq<nat>) {
    && |pids| == |m.parties| && Valid(u) && NobodyJoined(s, u) && FilesKept(x, s, u, m.blobs)
    && u == s.(people := u.people, identifiers := u.identifiers, blobs := u.blobs)
    && (forall k :: 0 <= k < |pids| ==> ResolvesTo(u, m.parties[k].contact.ident, pids[k]))
  }

  lemma {:induction false} WrittenIsValid(x: Library, s: Store, blobs: seq<Blob>)
    requires Valid(s)
    ensures Valid(WriteBlobs(x, s, blobs))
  {
    FilesOnly(x, s, blobs);
    SameRolesSameSender(s, WriteBlobs(x, s, blobs));
  }

  lemma {:induction false} LookupsJoinNobody(s: Store, cs: seq<Contact>)
    requires Valid(s)
    ensures var u := FindOrCreateAll(s, cs).0; Valid(u) && OnlyNewPeople(s, u) && NobodyJoined(s, u)
  {
    FindOrCreateAllExtends(s, cs);
    FindOrCreateAllSeparates(s, cs);
  }

  lemma {:induction false} FilesJoinNobody(s: Store, w: Store, u: Store)
    requires w == s.(blobs := w.blobs) && NobodyJoined(w, u)
    ensures NobodyJoined(s, u)
  {
    assert forall i, j :: SamePerson(s, i, j) == SamePerson(w, i, j);
  }

  lemma {:induction false} LooksUp(x: Library, s: Store, m: Incoming)
    requires Valid(s)
    ensures var (u, pids) := FindOrCreateAll(WriteBlobs(x, s, m.blobs), Contacts(m.parties));
            LookedUp(x, s, m, u, pids)
  {
    var w, cs := WriteBlobs(x, s, m.blobs), Contacts(m.parties);
    FilesWritten(x, s, m.blobs);
    FilesOnly(x, s, m.blobs);
    WrittenIsValid(x, s, m.blobs);
    LookupsJoinNobody(w, cs);
    FilesJoinNobody(s, w, FindOrCreateAll(w, cs).0);
    ContactsResolve(x, s, m);
  }

  /** A save of a message so named and with those files: when it skips or is refused, and what it never
      changes. */
  ghost predicate Decided(x: Library, s: Store, account: nat, externalId: string, blobs: seq<Blob>, t: Store,
                          o: Outcome)
  {
    && (o.Skipped? <==> Known(s, account, externalId)) && (o.Skipped? ==> NamedSo(s, account, externalId, o.id))
    && (o.Refused? <==> !Known(s, account, externalId) && account !in s.accounts)
    && (o.Refused? ==> o.error == UnknownAccount)
    && (!o.Inserted? ==> t == s.(people := t.people, identifiers := t.identifiers, blobs := t.blobs))
    && NobodyJoined(s, t) && FilesKept(x, s, t, blobs)
  }

  lemma {:induction false} LookedUpExist(x: Library, s: Store, m: Incoming, u: Store, pids: seq<nat>)
    requires LookedUp(x, s, m, u, pids)
    ensures forall p :: p in pids ==> p in u.people
  {
    forall p | p in pids ensures p in u.people {
      var k :| 0 <= k < |pids| && pids[k] == p;
      assert ResolvesTo(u, m.parties[k].contact.ident, pids[k]);
    }
  }

  lemma {:induction false} SamePeople(s: Store, u: Store, t: Store)
    requires NobodyJoined(s, u) && t.people == u.people && t.identifiers == u.identifiers
    ensures NobodyJoined(s, t)
  {
    assert forall i, j :: SamePerson(t, i, j) == SamePerson(u, i, j);
  }

  lemma {:induction false} DecidedThere(x: Library, s: Store, m: Incoming, u: Store, pids: seq<nat>)
    requires LookedUp(x, s, m, u, pids)
    ensures var (t, o) := InsertMessage(x, u, m, pids); Decided(x, s, m.account, m.externalId, m.blobs, t, o)
  {
    var (t, o) := InsertMessage(x, u, m, pids);
    InsertIs(x, u, m, pids);
    assert forall id :: NamedSo(u, m.account, m.externalId, id) == NamedSo(s, m.account, m.externalId, id);
    LookedUpExist(x, s, m, u, pids);
    SamePeople(s, u, t);
  }

  /** A save reports a known message, is refused exactly for a new one of an unknown account, and never joins
      two people into one or loses a file. */
  lemma {:induction false} SaveDecides(x: Library, s: Store, m: Incoming)
    requires Valid(s)
    ensures var (t, o) := SaveMessage(x, s, m); Decided(x, s, m.account, m.externalId, m.blobs, t, o)
  {
    LooksUp(x, s, m);
    var (u, pids) := FindOrCreateAll(WriteBlobs(x, s, m.blobs), Contacts(m.parties));
    DecidedThere(x, s, m, u, pids);
  }

  // ---------------------------------------------------------------- who is stored in which role

  ghost predicate Brings(ps: seq<Party>, role: Role, i: Ident) {
    exists k :: 0 <= k < |ps| && ps[k].role == role && ps[k].contact.ident == i
  }

  /** `r.person` holds an identifier that the message brings in that role. */
  ghost predicate Stands(t: Store, ps: seq<Party>, r: RoleRow) {
    exists i :: Brings(ps, r.role, i) && ResolvesTo(t, i, r.person)
  }

  /** The roles of message `id` are those of the people its parties are, no more and no fewer. */
  ghost predicate RolesFollow(t: Store, ps: seq<Party>, id: nat) {
    && id in t.messages
    && (forall i, role :: Brings(ps, role, i) ==> i in t.identifiers)
    && (forall r: RoleRow :: r.message == id ==> (r in t.roles <==> Stands(t, ps, r)))
  }

  lemma {:induction false} SaveRolesFollow(x: Library, s: Store, m: Incoming)
    requires Valid(s) && SaveMessage(x, s, m).1.Inserted?
    ensures RolesFollow(SaveMessage(x, s, m).0, m.parties, SaveMessage(x, s, m).1.id)
  {
    var (t, o) := SaveMessage(x, s, m);
    ContactsThere(WriteBlobs(x, s, m.blobs), Contacts(m.parties));
    forall i, role | Brings(m.parties, role, i) ensures i in t.identifiers {
      var k :| 0 <= k < |m.parties| && m.parties[k].role == role && m.parties[k].contact.ident == i;
      assert Contacts(m.parties)[k].ident == i;
    }
    forall r: RoleRow | r.message == o.id ensures r in t.roles <==> Stands(t, m.parties, r) {
      SaveStoresRoles(x, s, m, r);
      if k :| 0 <= k < |m.parties| && ResolvesTo(t, m.parties[k].contact.ident, r.person)
              && r.role == m.parties[k].role {
        assert Brings(m.parties, r.role, m.parties[k].contact.ident);
      }
    }
  }

  /** `p` is who the address in a header belongs to. */
  ghost predicate HasAddress(x: Library, t: Store, raw: string, p: nat) {
    ResolvesTo(t, Ident(EmailKind, x.norm(EmailKind, x.splitAddress(raw).0)), p)
  }

  ghost predicate HasHandle(x: Library, t: Store, handle: string, p: nat) {
    ResolvesTo(t, Ident(x.handleKind(handle), x.norm(x.handleKind(handle), handle)), p)
  }

  ghost predicate WroteOrGot(x: Library, t: Store, m: EmailMessage, r: RoleRow) {
    exists raw :: raw in Header(m, r.role) && HasAddress(x, t, raw, r.person)
  }

  ghost predicate TookPart(x: Library, t: Store, m: Saving.IMessage, r: RoleRow) {
    exists handle :: handle in Handles(m, r.role) && HasHandle(x, t, handle, r.person)
  }

  /** Each address of the mail stands in its role as the person who holds it, and nobody else does. */
  ghost predicate MailRoles(x: Library, t: Store, m: EmailMessage, id: nat) {
    && (forall role, raw :: raw in Header(m, role) ==> exists p :: RoleRow(id, p, role) in t.roles
                                                                     && HasAddress(x, t, raw, p))
    && (forall r: RoleRow :: r.message == id ==> (r in t.roles <==> WroteOrGot(x, t, m, r)))
  }

  ghost predicate ChatRoles(x: Library, t: Store, m: Saving.IMessage, id: nat) {
    && (forall role, handle :: handle in Handles(m, role) ==> exists p :: RoleRow(id, p, role) in t.roles
                                                                          && HasHandle(x, t, handle, p))
    && (forall r: RoleRow :: r.message == id ==> (r in t.roles <==> TookPart(x, t, m, r)))
  }

  lemma {:induction false} BringsEither(a: seq<Party>, b: seq<Party>, role: Role, i: Ident)
    ensures Brings(a + b, role, i) <==> Brings(a, role, i) || Brings(b, role, i)
  {
    if k :| 0 <= k < |a| && a[k].role == role && a[k].contact.ident == i { assert (a + b)[k] == a[k]; }
    if k :| 0 <= k < |b| && b[k].role == role && b[k].contact.ident == i { assert (a + b)[|a| + k] == b[k]; }
  }

  lemma {:induction false} HeaderBrings(x: Library, addresses: seq<string>, own: Role, role: Role, i: Ident)
    ensures Brings(EmailParties(x, addresses, own), role, i)
       <==> role == own
            && exists raw :: raw in addresses && i == Ident(EmailKind, x.norm(EmailKind, x.splitAddress(raw).0))
  {
    var ps := EmailParties(x, addresses, own);
    if k :| 0 <= k < |ps| && ps[k].role == role && ps[k].contact.ident == i { assert addresses[k] in addresses; }
    if raw :| raw in addresses && i == Ident(EmailKind, x.norm(EmailKind, x.splitAddress(raw).0)) {
      var k :| 0 <= k < |addresses| && addresses[k] == raw;
      assert ps[k].contact.ident == i;
    }
  }

  lemma {:induction false} HandlesBring(x: Library, handles: seq<string>, own: Role, role: Role, i: Ident)
    ensures Brings(HandleParties(x, handles, own), role, i)
       <==> role == own && exists h :: h in handles && i == Ident(x.handleKind(h), x.norm(x.handleKind(h), h))
  {
    var ps := HandleParties(x, handles, own);
    if k :| 0 <= k < |ps| && ps[k].role == role && ps[k].contact.ident == i { assert handles[k] in handles; }
    if h :| h in handles && i == Ident(x.handleKind(h), x.norm(x.handleKind(h), h)) {
      var k :| 0 <= k < |handles| && handles[k] == h;
      assert ps[k].contact.ident == i;
    }
  }

  /** A mail brings the normalised addresses of its headers. */
  lemma {:induction false} MailBrings(x: Library, m: EmailMessage, role: Role, i: Ident)
    ensures Brings(FromEmail(x, m).parties, role, i)
       <==> exists raw :: raw in Header(m, role) && i == Ident(EmailKind, x.norm(EmailKind, x.splitAddress(raw).0))
  {
    var f, to := EmailParties(x, [m.fromAddress], From), EmailParties(x, m.toAddresses, To);
    var cc, bcc := EmailParties(x, m.ccAddresses, Cc), EmailParties(x, m.bccAddresses, Bcc);
    BringsEither(f + to + cc, bcc, role, i);
    BringsEither(f + to, cc, role, i);
    BringsEither(f, to, role, i);
    HeaderBrings(x, [m.fromAddress], From, role, i);
    HeaderBrings(x, m.toAddresses, To, role, i);
    HeaderBrings(x, m.ccAddresses, Cc, role, i);
    HeaderBrings(x, m.bccAddresses, Bcc, role, i);
  }

  lemma {:induction false} ChatBrings(x: Library, m: Saving.IMessage, role: Role, i: Ident)
    ensures Brings(FromIMessage(x, m).parties, role, i)
       <==> exists h :: h in Handles(m, role) && i == Ident(x.handleKind(h), x.norm(x.handleKind(h), h))
  {
    var f, ps := HandleParties(x, [m.senderHandle], From), HandleParties(x, m.participants, Participant);
    BringsEither(f, ps, role, i);
    HandlesBring(x, [m.senderHandle], From, role, i);
    HandlesBring(x, m.participants, Participant, role, i);
  }

  lemma {:induction false} FollowedByMail(x: Library, t: Store, m: EmailMessage, id: nat)
    requires RolesFollow(t, FromEmail(x, m).parties, id) && ForeignKeys(t)
    ensures MailRoles(x, t, m, id)
  {
    var ps := FromEmail(x, m).parties;
    forall r: RoleRow | r.message == id ensures r in t.roles <==> WroteOrGot(x, t, m, r) {
      if i :| Brings(ps, r.role, i) && ResolvesTo(t, i, r.person) { MailBrings(x, m, r.role, i); }
      if raw :| raw in Header(m, r.role) && HasAddress(x, t, raw, r.person) {
        MailBrings(x, m, r.role, Ident(EmailKind, x.norm(EmailKind, x.splitAddress(raw).0)));
        assert Stands(t, ps, r);
      }
    }
    forall role, raw | raw in Header(m, role)
      ensures exists p :: RoleRow(id, p, role) in t.roles && HasAddress(x, t, raw, p)
    {
      var i := Ident(EmailKind, x.norm(EmailKind, x.splitAddress(raw).0));
      MailBrings(x, m, role, i);
      assert HasAddress(x, t, raw, t.identifiers[i]);
      assert WroteOrGot(x, t, m, RoleRow(id, t.identifiers[i], role));
    }
  }

  lemma {:induction false} FollowedByChat(x: Library, t: Store, m: Saving.IMessage, id: nat)
    requires RolesFollow(t, FromIMessage(x, m).parties, id) && ForeignKeys(t)
    ensures ChatRoles(x, t, m, id)
  {
    var ps := FromIMessage(x, m).parties;
    forall r: RoleRow | r.message == id ensures r in t.roles <==> TookPart(x, t, m, r) {
      if i :| Brings(ps, r.role, i) && ResolvesTo(t, i, r.person) { ChatBrings(x, m, r.role, i); }
      if h :| h in Handles(m, r.role) && HasHandle(x, t, h, r.person) {
        ChatBrings(x, m, r.role, Ident(x.handleKind(h), x.norm(x.handleKind(h), h)));
        assert Stands(t, ps, r);
      }
    }
    forall role, handle | handle in Handles(m, role)
      ensures exists p :: RoleRow(id, p, role) in t.roles && HasHandle(x, t, handle, p)
    {
      var i := Ident(x.handleKind(handle), x.norm(x.handleKind(handle), handle));
      ChatBrings(x, m, role, i);
      assert HasHandle(x, t, handle, t.identifiers[i]);
      assert TookPart(x, t, m, RoleRow(id, t.identifiers[i], role));
    }
  }

  // ---------------------------------------------------------------- a mail, an iMessage

  /** The row of a mail under an account of that source. */
  predicate IsMail(row: Message, m: EmailMessage, source: string) {
    && row.account == m.account && row.source == source && row.externalId == m.externalId
    && row.sentAt == m.sentAt && row.bodyText == m.bodyText && row.outbound == m.outbound
    && row.detail.EmailDetails?
    && row.detail.uid == m.uid && row.detail.mailbox == m.mailbox && row.detail.subject == m.subject
  }

  predicate IsChat(row: Message, m: Saving.IMessage, source: string) {
    && row.account == m.account && row.source == source && row.externalId == m.externalId
    && row.sentAt == m.sentAt && row.bodyText == m.bodyText && row.outbound == m.outbound
    && row.detail.IMessageDetails?
    && row.detail.chatGuid == m.chatGuid && row.detail.service == m.service && row.detail.isRead == m.isRead
  }

  /** `save_email` has stored `m` under `id`: its row, its files and its people, and nothing else. */
  ghost predicate MailAdded(x: Library, s: Store, t: Store, m: EmailMessage, id: nat) {
    && m.account in s.accounts && id in t.messages && IsMail(t.messages[id], m, s.accounts[m.account].source)
    && OneMessageMore(x, s, t, id, t.messages[id], m.blobs) && MailRoles(x, t, m, id)
  }

  ghost predicate ChatAdded(x: Library, s: Store, t: Store, m: Saving.IMessage, id: nat) {
    && m.account in s.accounts && id in t.messages && IsChat(t.messages[id], m, s.accounts[m.account].source)
    && OneMessageMore(x, s, t, id, t.messages[id], m.blobs) && ChatRoles(x, t, m, id)
  }

  lemma {:induction false} SaveStores(x: Library, s: Store, m: Incoming)
    requires Valid(s) && SaveMessage(x, s, m).1.Inserted?
    ensures var (t, o) := SaveMessage(x, s, m);
            && m.account in s.accounts
            && OneMessageMore(x, s, t, o.id,
                              Message(m.account, s.accounts[m.account].source, m.externalId, m.sentAt, m.bodyText,
                                      m.outbound, m.detail), m.blobs)
  {
    LooksUp(x, s, m);
    var (u, pids) := FindOrCreateAll(WriteBlobs(x, s, m.blobs), Contacts(m.parties));
    InsertStores(x, u, m, pids);
  }

  lemma {:induction false} SaveKeepsValid(x: Library, s: Store, m: Incoming)
    requires Valid(s) && OneFrom(m)
    ensures Valid(SaveMessage(x, s, m).0)
  {
    LooksUp(x, s, m);
    var (u, pids) := FindOrCreateAll(WriteBlobs(x, s, m.blobs), Contacts(m.parties));
    InsertKeepsValid(x, u, m, pids);
  }

  lemma {:induction false} SaveEmailAdds(x: Library, s: Store, m: EmailMessage)
    requires Valid(s) && SaveMessage(x, s, FromEmail(x, m)).1.Inserted?
    ensures var (t, o) := SaveMessage(x, s, FromEmail(x, m)); MailAdded(x, s, t, m, o.id)
  {
    SaveStores(x, s, FromEmail(x, m));
    SaveRolesFollow(x, s, FromEmail(x, m));
    SaveKeepsValid(x, s, FromEmail(x, m));
    FollowedByMail(x, SaveMessage(x, s, FromEmail(x, m)).0, m, SaveMessage(x, s, FromEmail(x, m)).1.id);
  }

  lemma {:induction false} SaveIMessageAdds(x: Library, s: Store, m: Saving.IMessage)
    requires Valid(s) && SaveMessage(x, s, FromIMessage(x, m)).1.Inserted?
    ensures var (t, o) := SaveMessage(x, s, FromIMessage(x, m)); ChatAdded(x, s, t, m, o.id)
  {
    SaveStores(x, s, FromIMessage(x, m));
    SaveRolesFollow(x, s, FromIMessage(x, m));
    SaveKeepsValid(x, s, FromIMessage(x, m));
    FollowedByChat(x, SaveMessage(x, s, FromIMessage(x, m)).0, m, SaveMessage(x, s, FromIMessage(x, m)).1.id);
  }

  lemma {:induction false} SaveEmailDecides(x: Library, s: Store, m: EmailMessage)
    requires Valid(s)
    ensures var (t, o) := SaveMessage(x, s, FromEmail(x, m)); Decided(x, s, m.account, m.externalId, m.blobs, t, o)
  {
    SaveDecides(x, s, FromEmail(x, m));
  }

  lemma {:induction false} SaveIMessageDecides(x: Library, s: Store, m: Saving.IMessage)
    requires Valid(s)
    ensures var (t, o) := SaveMessage(x, s, FromIMessage(x, m)); Decided(x, s, m.account, m.externalId, m.blobs, t, o)
  {
    SaveDecides(x, s, FromIMessage(x, m));
  }

  // ---------------------------------------------------------------- the names of new people

  /** `p` was added for the `k`-th text, the first with an address that nobody had, and bears its display
      name. */
  ghost predicate NamedByText(x: Library, s: Store, t: Store, texts: seq<string>, k: nat, p: nat) {
    && k < |texts| && HasAddress(x, t, texts[k], p) && p !in s.people
    && (forall h :: 0 <= h < k ==>
          x.norm(EmailKind, x.splitAddress(texts[h]).0) != x.norm(EmailKind, x.splitAddress(texts[k]).0))
    && t.people[p] == Person(x.splitDisplayName(x.splitAddress(texts[k]).1).0,
                             x.splitDisplayName(x.splitAddress(texts[k]).1).1, false)
  }

  /** The texts of all headers, in the order they are looked up. */
  function Headers(m: EmailMessage): seq<string> {
    [m.fromAddress] + m.toAddresses + m.ccAddresses + m.bccAddresses
  }

  lemma {:induction false} HeadersAreContacts(x: Library, m: EmailMessage)
    ensures Contacts(FromEmail(x, m).parties) == EmailContacts(x, Headers(m))
  {
  }

  lemma {:induction false} InsertKeepsPeople(x: Library, u: Store, m: Incoming, pids: seq<nat>)
    requires |pids| == |m.parties|
    ensures var t := InsertMessage(x, u, m, pids).0; t.people == u.people && t.identifiers == u.identifiers
  {
  }

  lemma {:induction false} SavePeople(x: Library, s: Store, m: Incoming)
    requires Valid(s)
    ensures var w, t := WriteBlobs(x, s, m.blobs), SaveMessage(x, s, m).0;
            var u := FindOrCreateAll(w, Contacts(m.parties)).0;
            && Valid(w) && w.people == s.people && w.identifiers == s.identifiers
            && t.people == u.people && t.identifiers == u.identifiers
  {
    WrittenIsValid(x, s, m.blobs);
    FilesOnly(x, s, m.blobs);
    var (u, pids) := FindOrCreateAll(WriteBlobs(x, s, m.blobs), Contacts(m.parties));
    InsertKeepsPeople(x, u, m, pids);
  }

  lemma {:induction false} AddedIsNamed(x: Library, w: Store, u: Store, s: Store, t: Store, texts: seq<string>, k: nat,
                                        p: nat)
    requires AddedFor(w, u, EmailContacts(x, texts), k, p)
    requires w.people == s.people && t.people == u.people && t.identifiers == u.identifiers
    ensures NamedByText(x, s, t, texts, k, p)
  {
    var cs := EmailContacts(x, texts);
    assert cs[k] == EmailContact(x, texts[k]);
    forall h | 0 <= h < k
      ensures x.norm(EmailKind, x.splitAddress(texts[h]).0) != x.norm(EmailKind, x.splitAddress(texts[k]).0)
    {
      assert cs[h] == EmailContact(x, texts[h]) && cs[h].ident != cs[k].ident;
    }
  }

  /** Everybody a mail adds is named by the first of its addresses that is theirs. */
  lemma {:induction false} NewPersonIsNamed(x: Library, s: Store, m: EmailMessage, p: nat) returns (k: nat)
    requires Valid(s) && p in SaveMessage(x, s, FromEmail(x, m)).0.people && p !in s.people
    ensures NamedByText(x, s, SaveMessage(x, s, FromEmail(x, m)).0, Headers(m), k, p)
  {
    var i := FromEmail(x, m);
    var w, t := WriteBlobs(x, s, i.blobs), SaveMessage(x, s, i).0;
    SavePeople(x, s, i);
    HeadersAreContacts(x, m);
    k := NewPersonIsAdded(w, Contacts(i.parties), p);
    AddedIsNamed(x, w, FindOrCreateAll(w, Contacts(i.parties)).0, s, t, Headers(m), k, p);
  }

  /** And every address nobody had gets such a person. */
  lemma {:induction false} NewAddressIsNamed(x: Library, s: Store, m: EmailMessage, k: nat) returns (p: nat)
    requires Valid(s) && k < |Headers(m)|
    requires Ident(EmailKind, x.norm(EmailKind, x.splitAddress(Headers(m)[k]).0)) !in s.identifiers
    requires forall h :: 0 <= h < k ==> x.norm(EmailKind, x.splitAddress(Headers(m)[h]).0)
                                        != x.norm(EmailKind, x.splitAddress(Headers(m)[k]).0)
    ensures NamedByText(x, s, SaveMessage(x, s, FromEmail(x, m)).0, Headers(m), k, p)
  {
    var i := FromEmail(x, m);
    var w, t, cs := WriteBlobs(x, s, i.blobs), SaveMessage(x, s, i).0, EmailContacts(x, Headers(m));
    SavePeople(x, s, i);
    HeadersAreContacts(x, m);
    assert forall h :: 0 <= h < k ==> cs[h].ident != cs[k].ident;
    FirstGetsPerson(w, cs, k);
    p := FindOrCreateAll(w, cs).1[k];
    AddedIsNamed(x, w, FindOrCreateAll(w, cs).0, s, t, Headers(m), k, p);
  }

  lemma {:induction false} HandlesAreContacts(x: Library, m: Saving.IMessage)
    ensures Contacts(FromIMessage(x, m).parties) == HandleContacts(x, [m.senderHandle] + m.participants)
  {
    var a, b := Contacts(FromIMessage(x, m).parties), HandleContacts(x, [m.senderHandle] + m.participants);
    assert |a| == |b| && forall k :: 0 <= k < |a| ==> a[k] == b[k];
  }

  /** `p` holds one of the handles and bears the name of somebody without one. */
  ghost predicate NamedByHandle(x: Library, t: Store, handles: seq<string>, p: nat) {
    && (exists h :: h in handles && HasHandle(x, t, h, p))
    && t.people[p] == Person(x.splitDisplayName(None).0, x.splitDisplayName(None).1, false)
  }

  lemma {:induction false} AddedByHandle(x: Library, w: Store, u: Store, t: Store, handles: seq<string>, k: nat, p: nat)
    requires AddedFor(w, u, HandleContacts(x, handles), k, p)
    requires t.people == u.people && t.identifiers == u.identifiers
    ensures NamedByHandle(x, t, handles, p)
  {
    assert handles[k] in handles && HasHandle(x, t, handles[k], p);
  }

  /** Everybody an iMessage adds is such a person. */
  lemma {:induction false} NewHandleIsNamed(x: Library, s: Store, m: Saving.IMessage, p: nat)
    requires Valid(s) && p in SaveMessage(x, s, FromIMessage(x, m)).0.people && p !in s.people
    ensures NamedByHandle(x, SaveMessage(x, s, FromIMessage(x, m)).0, [m.senderHandle] + m.participants, p)
  {
    var i := FromIMessage(x, m);
    var w := WriteBlobs(x, s, i.blobs);
    SavePeople(x, s, i);
    HandlesAreContacts(x, m);
    var k := NewPersonIsAdded(w, Contacts(i.parties), p);
    AddedByHandle(x, w, FindOrCreateAll(w, Contacts(i.parties)).0, SaveMessage(x, s, i).0,
                  [m.senderHandle] + m.participants, k, p);
  }
}
