/** The tables of the database (core/db/migrations/001_init.sql) and what keeps them consistent. */
module Schema {
  import opened Prelude

  type Bytes = seq<bv8>

  datatype Kind = EmailKind | PhoneKind | IMessageHandleKind | TelegramUsernameKind | WhatsappNumberKind

  /** A row key of `identifiers`: kind and normalised value (UNIQUE (kind, value)). */
  datatype Ident = Ident(kind: Kind, value: string)

  datatype Person = Person(name: string, surname: Option<string>, isOwner: bool)

  datatype Account = Account(owner: nat, source: string, identifier: string, credentialsRef: Option<string>)

  datatype Role = From | To | Cc | Bcc | Participant

  /** A row of `message_people`; the whole row is its primary key. */
  datatype RoleRow = RoleRow(message: nat, person: nat, role: Role)

  datatype Detail =
    | EmailDetails(uid: nat, mailbox: string, subject: string)
    | IMessageDetails(chatGuid: string, service: string, isRead: bool)

  datatype Message = Message(account: nat, source: string, externalId: string, sentAt: string,
                             bodyText: string, outbound: bool, detail: Detail)

  datatype Attachment = Attachment(message: nat, filename: string, hash: string, mimeType: Option<string>, size: nat)

  datatype Status = Status(ingested: nat, lastError: Option<string>)

  /** The tables, and the attachment files of the content-addressed store keyed by hash.
      `identifiers` is keyed by its UNIQUE key; people, accounts and messages by row id. */
  datatype Store = Store(
    people: map<nat, Person>,
    identifiers: map<Ident, nat>,
    accounts: map<nat, Account>,
    messages: map<nat, Message>,
    roles: set<RoleRow>,
    attachments: seq<Attachment>,
    status: map<nat, Status>,
    blobs: map<string, Bytes>)

  /** Library text functions the code relies on and this model does not open up: identifier
      normalisation by kind, `str.lower`, splitting `Name <addr>` and display names, the kind of an
      iMessage handle, and the attachment digest. */
  datatype Library = Library(
    norm: (Kind, string) -> string,
    lower: string -> string,
    splitAddress: string -> (string, Option<string>),
    splitDisplayName: Option<string> -> (string, Option<string>),
    handleKind: string -> Kind,
    hash: Bytes -> string)

  /** Every foreign key resolves. */
  ghost predicate ForeignKeys(s: Store) {
    && (forall i :: i in s.identifiers ==> s.identifiers[i] in s.people)
    && (forall a :: a in s.accounts ==> s.accounts[a].owner in s.people)
    && (forall m :: m in s.messages ==> s.messages[m].account in s.accounts)
    && (forall r :: r in s.roles ==> r.message in s.messages && r.person in s.people)
    && (forall k :: 0 <= k < |s.attachments| ==> s.attachments[k].message in s.messages)
    && (forall a :: a in s.status ==> a in s.accounts)
  }

  predicate SameAccount(a: Account, b: Account) {
    a.source == b.source && a.identifier == b.identifier
  }

  predicate SameMessage(m: Message, n: Message) {
    m.account == n.account && m.externalId == n.externalId
  }

  /** (source, account_identifier) and (account_id, external_id) are unique. */
  ghost predicate UniqueKeys(s: Store) {
    && (forall a, b {:trigger SameAccount(s.accounts[a], s.accounts[b])} ::
          a in s.accounts && b in s.accounts && SameAccount(s.accounts[a], s.accounts[b]) ==> a == b)
    && (forall m, n {:trigger SameMessage(s.messages[m], s.messages[n])} ::
          m in s.messages && n in s.messages && SameMessage(s.messages[m], s.messages[n]) ==> m == n)
  }

  ghost predicate IsSender(s: Store, m: nat, p: nat) {
    RoleRow(m, p, From) in s.roles
  }

  /** Each message has exactly one 'from' row, so joining on it neither drops nor repeats a message. */
  ghost predicate OneSender(s: Store) {
    && (forall m :: m in s.messages ==> exists p :: IsSender(s, m, p))
    && (forall m, p, q :: IsSender(s, m, p) && IsSender(s, m, q) ==> p == q)
  }

  /** A message's source is its account's source. */
  ghost predicate SourcesAgree(s: Store) {
    forall m :: m in s.messages && s.messages[m].account in s.accounts ==>
      s.messages[m].source == s.accounts[s.messages[m].account].source
  }

  ghost predicate Valid(s: Store) {
    ForeignKeys(s) && UniqueKeys(s) && OneSender(s) && SourcesAgree(s)
  }

  /** An attachment row names a file that has the recorded hash and length. */
  ghost predicate FileAgrees(s: Store, hash: Bytes -> string, a: Attachment) {
    a.hash in s.blobs && |s.blobs[a.hash]| == a.size && hash(s.blobs[a.hash]) == a.hash
  }

  ghost predicate AttachmentsStored(s: Store, hash: Bytes -> string) {
    forall k :: 0 <= k < |s.attachments| ==> FileAgrees(s, hash, s.attachments[k])
  }

  /** Every file sits under the hash of its own bytes. */
  ghost predicate BlobsHashed(s: Store, hash: Bytes -> string) {
    forall h :: h in s.blobs ==> hash(s.blobs[h]) == h
  }
}
