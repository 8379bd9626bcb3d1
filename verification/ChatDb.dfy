/** The iMessage sync loop against what chat.db holds: rows with a date and a message, and what the tables
    hold of them after any runs. */
module ChatDb {
  import opened Prelude
  import opened Schema
  import opened Saving
  import opened History
  import opened Stored
  import opened ResumableLog
  import opened Archive
  import opened SyncLoop
  import opened Backfill
  import opened Interrupted
  import opened AppleTime
  import opened IsoText
  import opened IMessageSync
  import Mail = MailSync

  /** A row of chat.db: its date in nanoseconds, and the message, whose time is made from the date. */
  datatype DbRow = DbRow(ns: nat, message: Saving.IMessage)

  /** chat.db of one account, in the helper's order: dates ascend (rows of one instant by ROWID), and a
      message listed once per chat keeps its guid and date. */
  ghost predicate OnDisk(rows: seq<DbRow>, account: nat) {
    && (forall i :: 0 <= i < |rows| ==> rows[i].message.account == account && rows[i].ns <= MAX_NANOS)
    && (forall i, j :: 0 <= i <= j < |rows| ==> rows[i].ns <= rows[j].ns)
    && (forall i, j :: (0 <= i < |rows| && 0 <= j < |rows| && rows[i].message.externalId == rows[j].message.externalId
                        ==> rows[i].ns == rows[j].ns))
  }

  /** `record_to_imessage`, but for the stamp. */
  function Records(x: Library, rows: seq<DbRow>): (rs: seq<ChatRow>)
    ensures |rs| == |rows|
  {
    seq(|rows|, k requires 0 <= k < |rows| => ChatRow(rows[k].ns, FromIMessage(x, rows[k].message)))
  }

  /** The message of a row as it is stored. */
  function StampedMessage(r: DbRow): Saving.IMessage {
    r.message.(sentAt := Stamp(ToMicros(r.ns)))
  }

  lemma {:induction false} RecordIs(x: Library, rows: seq<DbRow>, k: nat)
    requires k < |rows|
    ensures Dates(Records(x, rows))[k] == rows[k].ns
    ensures Stamped(Records(x, rows))[k] == FromIMessage(x, StampedMessage(rows[k]))
  {
  }

  lemma {:induction false} RecordsAreOwned(x: Library, rows: seq<DbRow>, account: nat)
    requires OnDisk(rows, account)
    ensures Owned(account, Stamped(Records(x, rows)))
  {
    forall k | 0 <= k < |rows| ensures Stamped(Records(x, rows))[k].account == account { RecordIs(x, rows, k); }
  }

  lemma {:induction false} RecordsAreForAccount(x: Library, s: Store, rows: seq<DbRow>, account: nat)
    requires OnDisk(rows, account) && account in s.accounts
    ensures ForAccount(s, account, Stamped(Records(x, rows)))
  {
    forall k | 0 <= k < |rows|
      ensures Stamped(Records(x, rows))[k].account == account && OneFrom(Stamped(Records(x, rows))[k])
    {
      RecordIs(x, rows, k);
    }
  }

  lemma {:induction false} RecordsAreChatLog(x: Library, source: string, rows: seq<DbRow>, account: nat)
    requires OnDisk(rows, account)
    ensures ChatLog(Dates(Records(x, rows)), Entries(source, Stamped(Records(x, rows))))
  {
    var dates, log := Dates(Records(x, rows)), Entries(source, Stamped(Records(x, rows)));
    forall k | 0 <= k < |rows|
      ensures dates[k] == rows[k].ns && log[k].key == rows[k].message.externalId
      ensures log[k].value.sentAt == Stamp(ToMicros(rows[k].ns))
    {
      RecordIs(x, rows, k);
    }
  }

  /** What the loop's results ask of the records follows from chat.db. */
  lemma {:induction false} RecordsAreFresh(x: Library, s: Store, rows: seq<DbRow>, account: nat)
    requires Fresh(s, account) && OnDisk(rows, account)
    ensures FreshAccount(s, account, Records(x, rows))
  {
    NothingArchived(s, account);
    RecordsAreForAccount(x, s, rows, account);
    RecordsAreChatLog(x, s.accounts[account].source, rows, account);
  }

  // ---------------------------------------------------------------- the condition

  /** Some row up to `i` has that guid. */
  ghost predicate ReadBy(rows: seq<DbRow>, i: nat, guid: string) {
    exists h :: 0 <= h <= i < |rows| && rows[h].message.externalId == guid
  }

  /** Each row lies beyond the watermark that stopping after an earlier one leaves behind, or repeats a
      message read by then. */
  ghost predicate RowsResumable(rows: seq<DbRow>) {
    forall i: nat, j: nat :: i < j < |rows| ==>
      rows[j].ns > ToNanos(ToMicros(rows[i].ns)) || ReadBy(rows, i, rows[j].message.externalId)
  }

  lemma {:induction false} KeysRead(x: Library, source: string, rows: seq<DbRow>, i: nat, guid: string)
    requires i < |rows|
    ensures guid in Keys(Entries(source, Stamped(Records(x, rows)))[..i + 1]) <==> ReadBy(rows, i, guid)
  {
    var log := Entries(source, Stamped(Records(x, rows)));
    forall k | 0 <= k < |rows| ensures log[k].key == rows[k].message.externalId { RecordIs(x, rows, k); }
    if h :| 0 <= h <= i && rows[h].message.externalId == guid { assert log[..i + 1][h].key == guid; }
  }

  lemma {:induction false} ResumableIff(x: Library, source: string, rows: seq<DbRow>)
    ensures Resumable(Dates(Records(x, rows)), Entries(source, Stamped(Records(x, rows)))) <==> RowsResumable(rows)
  {
    var dates, log := Dates(Records(x, rows)), Entries(source, Stamped(Records(x, rows)));
    forall i: nat, j: nat | i < j < |rows|
      ensures PassesWatermark(dates, log, i, j)
         <==> rows[j].ns > ToNanos(ToMicros(rows[i].ns)) || ReadBy(rows, i, rows[j].message.externalId)
    {
      RecordIs(x, rows, i);
      RecordIs(x, rows, j);
      KeysRead(x, source, rows, i, rows[j].message.externalId);
    }
  }

  // ---------------------------------------------------------------- what a run asks for

  lemma {:induction false} AskedAfter(rows: seq<DbRow>, dates: seq<nat>, ns: int)
    requires |dates| == |rows| && forall i :: 0 <= i < |rows| ==> dates[i] == rows[i].ns
    requires forall i, j :: 0 <= i <= j < |rows| ==> rows[i].ns <= rows[j].ns
    ensures forall i :: 0 <= i < |rows| ==> (Dropped(dates, After(ns)) <= i <==> rows[i].ns > ns)
  {
    DroppedSplits(dates, ns);
  }

  lemma {:induction false} RowsAfter(x: Library, rows: seq<DbRow>, seen: nat, ns: int)
    requires seen <= |rows| && forall i, j :: 0 <= i <= j < |rows| ==> rows[i].ns <= rows[j].ns
    ensures forall i :: 0 <= i < seen ==> (Dropped(Dates(Records(x, rows))[..seen], After(ns)) <= i <==> rows[i].ns > ns)
  {
    AskedAfter(rows[..seen], Dates(Records(x, rows))[..seen], ns);
  }

  /** A stored time that is read back as a datetime. */
  ghost predicate Reads(text: string, d: DateTime) {
    Parse(text) == Some(d) && ValidDateTime(d)
  }

  /** A run cannot begin exactly when the latest stored time is not one. */
  lemma {:induction false} UnreadableIff(latest: Option<string>)
    ensures ResumeFrom(latest).Unreadable? <==> latest.Some? && forall d :: !Reads(latest.value, d)
  {
    if latest.Some? && Parse(latest.value).Some? {
      assert Reads(latest.value, Parse(latest.value).value) <==> ValidDateTime(Parse(latest.value).value);
    }
  }

  /** The nanoseconds of a datetime before or after 2001. */
  ghost function NanosFrom2001(d: DateTime): int
    requires ValidDateTime(d)
  {
    if Micros(d) >= 0 then ToNanos(Micros(d)) else 0 - ToNanos(-Micros(d))
  }

  /** A run begins with the first row when nothing is stored, and otherwise with the first of the rows seen that
      is dated after the latest stored time. */
  lemma {:induction false} RunAsks(x: Library, s: Store, account: nat, rows: seq<DbRow>, seen: nat, d: DateTime)
    requires OnDisk(rows, account) && seen <= |rows|
    ensures LatestSentAt(s, account).None? ==> StartInTables(account, Records(x, rows))(s, seen) == 0
    ensures LatestSentAt(s, account).Some? && Reads(LatestSentAt(s, account).value, d) ==>
              forall i :: 0 <= i < seen ==>
                (StartInTables(account, Records(x, rows))(s, seen) <= i <==> rows[i].ns > NanosFrom2001(d))
  {
    var since := ResumeFrom(LatestSentAt(s, account));
    StartsFrom(s, account, Records(x, rows), since, seen);
    if since.After? { RowsAfter(x, rows, seen, since.ns); }
  }

  // ---------------------------------------------------------------- any runs

  /** The tables after the runs. */
  ghost function AfterChats(x: Library, s: Store, account: nat, rows: seq<DbRow>, rs: seq<Shared>): Store
    requires AllMine(account, rs) && OnDisk(rows, account)
  {
    RecordsAreOwned(x, rows, account);
    AfterShared(x, s, account, StartInTables(account, Records(x, rows)), Stamped(Records(x, rows)), rs)
  }

  /** The last run saw all of chat.db, was not cut, and none of its saves was refused. */
  ghost predicate ChatsComplete(x: Library, s: Store, account: nat, rows: seq<DbRow>, rs: seq<Shared>)
    requires AllMine(account, rs) && OnDisk(rows, account)
  {
    RecordsAreOwned(x, rows, account);
    Completes(x, s, account, StartInTables(account, Records(x, rows)), Stamped(Records(x, rows)), rs)
  }

  /** The guid of every row is stored. */
  ghost predicate AllKnown(t: Store, account: nat, rows: seq<DbRow>) {
    forall i :: 0 <= i < |rows| ==> Known(t, account, rows[i].message.externalId)
  }

  /** Whatever runs are stopped and whatever others write, once a run completes every guid is stored. */
  ghost predicate NeverLoses(x: Library, s: Store, account: nat, rows: seq<DbRow>)
    requires OnDisk(rows, account)
  {
    forall rs: seq<Shared> :: (AllMine(account, rs) && ChatsComplete(x, s, account, rows, rs)
                               ==> AllKnown(AfterChats(x, s, account, rows, rs), account, rows))
  }

  lemma {:induction false} ArchivedIffKnown(t: Store, account: nat, e: string)
    ensures e in Archived(t, account) <==> Known(t, account, e)
  {
    KnownIsArchived(t, account, e);
    if id :| NamedSo(t, account, e, id) { assert id in MessagesNamed(t.messages, account, e); }
    if id :| id in MessagesNamed(t.messages, account, e) { assert NamedSo(t, account, e, id); }
  }

  lemma {:induction false} StoredIffKnown(x: Library, s: Store, account: nat, rows: seq<DbRow>, rs: seq<Shared>)
    requires OnDisk(rows, account) && AllMine(account, rs) && Owned(account, Stamped(Records(x, rows)))
    ensures AllStored(x, s, account, Records(x, rows), rs)
       <==> AllKnown(AfterChats(x, s, account, rows, rs), account, rows)
  {
    var t := AfterChats(x, s, account, rows, rs);
    forall i | 0 <= i < |rows|
      ensures Records(x, rows)[i].body.externalId in Archived(t, account)
         <==> Known(t, account, rows[i].message.externalId)
    {
      ArchivedIffKnown(t, account, rows[i].message.externalId);
    }
  }

  lemma {:induction false} SafeIffNeverLoses(x: Library, s: Store, account: nat, rows: seq<DbRow>)
    requires OnDisk(rows, account) && Owned(account, Stamped(Records(x, rows)))
    ensures AlwaysSafe(x, s, account, Records(x, rows)) <==> NeverLoses(x, s, account, rows)
  {
    forall rs: seq<Shared> | AllMine(account, rs)
      ensures AllStored(x, s, account, Records(x, rows), rs)
         <==> AllKnown(AfterChats(x, s, account, rows, rs), account, rows)
    {
      StoredIffKnown(x, s, account, rows, rs);
    }
  }

  /** From an account with nothing stored, interruptions never lose a message for good, whatever others
      write before any step, if and only if the condition on chat.db holds. */
  lemma {:induction false} ResumptionIsSafeIff(x: Library, s: Store, account: nat, rows: seq<DbRow>)
    requires Fresh(s, account) && OnDisk(rows, account)
    ensures NeverLoses(x, s, account, rows) <==> RowsResumable(rows)
  {
    RecordsAreFresh(x, s, rows, account);
    IMessageSync.ResumptionIsSafeIff(x, s, account, Records(x, rows));
    ResumableIff(x, s.accounts[account].source, rows);
    SafeIffNeverLoses(x, s, account, rows);
  }

  // ---------------------------------------------------------------- what is stored

  ghost predicate IsFirst(rows: seq<DbRow>, i: nat) {
    i < |rows| && forall h :: 0 <= h < i ==> rows[h].message.externalId != rows[i].message.externalId
  }

  ghost predicate RowFromDb(row: Message, source: string, rows: seq<DbRow>) {
    exists i: nat :: IsFirst(rows, i) && IsChat(row, StampedMessage(rows[i]), source)
  }

  ghost predicate RowInTables(t: Store, source: string, r: DbRow) {
    exists id :: id in t.messages && IsChat(t.messages[id], StampedMessage(r), source)
  }

  /** The account's rows are those of the first listing of each guid, stamped with its date. */
  ghost predicate HoldsFirsts(t: Store, account: nat, source: string, rows: seq<DbRow>) {
    && Valid(t)
    && (forall id :: id in t.messages && t.messages[id].account == account ==> RowFromDb(t.messages[id], source, rows))
    && (forall i: nat :: IsFirst(rows, i) ==> RowInTables(t, source, rows[i]))
  }

  lemma {:induction false} FirstRecord(x: Library, rows: seq<DbRow>, i: nat)
    ensures IsFirst(rows, i) <==> Mail.FirstOfIts(Stamped(Records(x, rows)), i)
  {
    var log := Stamped(Records(x, rows));
    forall h | 0 <= h < |rows| ensures log[h].externalId == rows[h].message.externalId { RecordIs(x, rows, h); }
  }

  lemma {:induction false} RowOfRecord(x: Library, source: string, rows: seq<DbRow>, i: nat, row: Message)
    requires i < |rows| && row == RowOf(source, Stamped(Records(x, rows))[i])
    ensures IsChat(row, StampedMessage(rows[i]), source)
  {
    RecordIs(x, rows, i);
  }

  lemma {:induction false} KeptAreFirsts(x: Library, t: Store, account: nat, source: string, rows: seq<DbRow>)
    requires Valid(t) && Archived(t, account) == Keep(Entries(source, Stamped(Records(x, rows))))
    ensures HoldsFirsts(t, account, source, rows)
  {
    var log := Stamped(Records(x, rows));
    forall id | id in t.messages && t.messages[id].account == account ensures RowFromDb(t.messages[id], source, rows) {
      var i := Mail.RowIsFirst(t, account, source, log, id);
      FirstRecord(x, rows, i);
      RowOfRecord(x, source, rows, i, t.messages[id]);
    }
    forall i: nat | IsFirst(rows, i) ensures RowInTables(t, source, rows[i]) {
      FirstRecord(x, rows, i);
      var id := Mail.FirstHasRow(t, account, source, log, i);
      RowOfRecord(x, source, rows, i, t.messages[id]);
    }
  }

  lemma {:induction false} StillValid(x: Library, s: Store, account: nat, rows: seq<ChatRow>, rs: seq<Shared>)
    requires FreshAccount(s, account, rows) && AllMine(account, rs) && Owned(account, Stamped(rows))
    ensures Valid(AfterShared(x, s, account, StartInTables(account, rows), Stamped(rows), rs))
  {
    StartsAgree(account, rows);
    StillForAccount(x, s, account, StartInTables(account, rows), StartInArchive(Dates(rows)), Stamped(rows), rs);
  }

  /** Then a complete run also leaves exactly the rows of one uninterrupted pass. */
  lemma {:induction false} ResumptionEqualsBackfill(x: Library, s: Store, account: nat, rows: seq<DbRow>,
                                                    rs: seq<Shared>)
    requires Fresh(s, account) && OnDisk(rows, account) && AllMine(account, rs)
    requires ChatsComplete(x, s, account, rows, rs) && RowsResumable(rows)
    ensures HoldsFirsts(AfterChats(x, s, account, rows, rs), account, s.accounts[account].source, rows)
  {
    RecordsAreFresh(x, s, rows, account);
    RecordsAreOwned(x, rows, account);
    ResumableIff(x, s.accounts[account].source, rows);
    IMessageSync.ResumptionEqualsBackfill(x, s, account, Records(x, rows), rs);
    StillValid(x, s, account, Records(x, rows), rs);
    KeptAreFirsts(x, AfterChats(x, s, account, rows, rs), account, s.accounts[account].source, rows);
  }

  // ---------------------------------------------------------------- the whole database

  /** The identifier of a handle. */
  ghost predicate IsOf(x: Library, handle: string, i: Ident) {
    i == Ident(x.handleKind(handle), x.norm(x.handleKind(handle), handle))
  }

  /** Everybody in a message. */
  function People(m: Saving.IMessage): seq<string> {
    [m.senderHandle] + m.participants
  }

  ghost predicate HasSomebody(x: Library, m: Saving.IMessage, i: Ident) {
    exists handle :: handle in People(m) && IsOf(x, handle, i)
  }

  ghost predicate HasSuchFile(x: Library, m: Saving.IMessage, hash: string) {
    exists k :: 0 <= k < |m.blobs| && x.hash(m.blobs[k].content) == hash
  }

  /** Row `j` has nothing of its own next to the rows up to `i` and what the database held before: neither
      message nor people nor files. */
  ghost predicate AddsNothing(x: Library, s: Store, account: nat, rows: seq<DbRow>, i: nat, j: nat)
    requires i < j < |rows|
  {
    && (Known(s, account, rows[j].message.externalId) || ReadBy(rows, i, rows[j].message.externalId))
    && (forall p :: HasSomebody(x, rows[j].message, p) ==>
          p in s.identifiers || exists h :: 0 <= h <= i && HasSomebody(x, rows[h].message, p))
    && (forall hash :: HasSuchFile(x, rows[j].message, hash) ==>
          hash in s.blobs || exists h :: 0 <= h <= i && HasSuchFile(x, rows[h].message, hash))
  }

  /** Only such rows do not pass the watermark of an earlier one. */
  ghost predicate DropsNothing(x: Library, s: Store, account: nat, rows: seq<DbRow>) {
    forall i: nat, j: nat :: i < j < |rows| && rows[j].ns <= ToNanos(ToMicros(rows[i].ns)) ==>
      AddsNothing(x, s, account, rows, i, j)
  }

  lemma {:induction false} HasSomebodyIff(x: Library, m: Saving.IMessage, i: Ident)
    ensures HasSomebody(x, m, i) <==> Mentions(FromIMessage(x, m), i)
  {
    var ps, cs := FromIMessage(x, m).parties, HandleContacts(x, People(m));
    HandlesAreContacts(x, m);
    forall k | 0 <= k < |ps| ensures ps[k].contact == cs[k] { assert Contacts(ps)[k] == cs[k]; }
    if h :| h in People(m) && IsOf(x, h, i) {
      var k :| 0 <= k < |People(m)| && People(m)[k] == h;
      assert ps[k].contact.ident == i;
    }
    if k :| 0 <= k < |ps| && ps[k].contact.ident == i {
      assert People(m)[k] in People(m) && IsOf(x, People(m)[k], i);
    }
  }

  lemma {:induction false} RecordMentions(x: Library, rows: seq<DbRow>, k: nat, i: Ident)
    requires k < |rows|
    ensures Mentions(Stamped(Records(x, rows))[k], i) <==> HasSomebody(x, rows[k].message, i)
  {
    RecordIs(x, rows, k);
    HasSomebodyIff(x, StampedMessage(rows[k]), i);
    assert People(StampedMessage(rows[k])) == People(rows[k].message);
  }

  lemma {:induction false} RecordCarries(x: Library, rows: seq<DbRow>, k: nat, hash: string)
    requires k < |rows|
    ensures Carries(x, Stamped(Records(x, rows))[k], hash) <==> HasSuchFile(x, rows[k].message, hash)
  {
    RecordIs(x, rows, k);
  }

  lemma {:induction false} PersonBefore(x: Library, s: Store, rows: seq<DbRow>, i: nat, p: Ident)
    requires i < |rows|
    ensures HasPerson(s, Stamped(Records(x, rows))[..i + 1], p)
       <==> p in s.identifiers || exists h :: 0 <= h <= i && HasSomebody(x, rows[h].message, p)
  {
    var log := Stamped(Records(x, rows));
    forall h | 0 <= h <= i ensures Mentions(log[..i + 1][h], p) <==> HasSomebody(x, rows[h].message, p) {
      RecordMentions(x, rows, h, p);
    }
  }

  lemma {:induction false} FileBefore(x: Library, s: Store, rows: seq<DbRow>, i: nat, hash: string)
    requires i < |rows|
    ensures HasFile(x, s, Stamped(Records(x, rows))[..i + 1], hash)
       <==> hash in s.blobs || exists h :: 0 <= h <= i && HasSuchFile(x, rows[h].message, hash)
  {
    var log := Stamped(Records(x, rows));
    forall h | 0 <= h <= i ensures Carries(x, log[..i + 1][h], hash) <==> HasSuchFile(x, rows[h].message, hash) {
      RecordCarries(x, rows, h, hash);
    }
  }

  lemma {:induction false} IdBefore(x: Library, s: Store, account: nat, rows: seq<DbRow>, i: nat, e: string)
    requires i < |rows|
    ensures HasId(s, Stamped(Records(x, rows))[..i + 1], account, e) <==> Known(s, account, e) || ReadBy(rows, i, e)
  {
    var log := Stamped(Records(x, rows));
    ArchivedIffKnown(s, account, e);
    KnownIsArchived(s, account, e);
    forall h | 0 <= h <= i ensures log[..i + 1][h].externalId == rows[h].message.externalId { RecordIs(x, rows, h); }
  }

  lemma {:induction false} CoveredIff(x: Library, s: Store, account: nat, rows: seq<DbRow>, i: nat, j: nat)
    requires OnDisk(rows, account) && i < j < |rows|
    ensures Covered(x, s, Stamped(Records(x, rows))[..i + 1], Stamped(Records(x, rows))[j])
       <==> AddsNothing(x, s, account, rows, i, j)
  {
    var before, m := Stamped(Records(x, rows))[..i + 1], Stamped(Records(x, rows))[j];
    RecordIs(x, rows, j);
    IdBefore(x, s, account, rows, i, m.externalId);
    forall p
      ensures Mentions(m, p) <==> HasSomebody(x, rows[j].message, p)
      ensures HasPerson(s, before, p)
         <==> p in s.identifiers || exists h :: 0 <= h <= i && HasSomebody(x, rows[h].message, p)
    {
      RecordMentions(x, rows, j, p);
      PersonBefore(x, s, rows, i, p);
    }
    forall hash
      ensures Carries(x, m, hash) <==> HasSuchFile(x, rows[j].message, hash)
      ensures HasFile(x, s, before, hash)
         <==> hash in s.blobs || exists h :: 0 <= h <= i && HasSuchFile(x, rows[h].message, hash)
    {
      RecordCarries(x, rows, j, hash);
      FileBefore(x, s, rows, i, hash);
    }
    CoveredByParts(x, s, before, m);
  }

  lemma {:induction false} CoveredByParts(x: Library, s: Store, before: seq<Incoming>, m: Incoming)
    ensures Covered(x, s, before, m)
       <==> (HasId(s, before, m.account, m.externalId)
             && (forall p :: Mentions(m, p) ==> HasPerson(s, before, p))
             && (forall hash :: Carries(x, m, hash) ==> HasFile(x, s, before, hash)))
  {
    if forall p :: Mentions(m, p) ==> HasPerson(s, before, p) {
      forall k | 0 <= k < |m.parties| ensures HasPerson(s, before, m.parties[k].contact.ident) {
        assert Mentions(m, m.parties[k].contact.ident);
      }
    }
    if forall hash :: Carries(x, m, hash) ==> HasFile(x, s, before, hash) {
      forall k | 0 <= k < |m.blobs| ensures HasFile(x, s, before, x.hash(m.blobs[k].content)) {
        assert Carries(x, m, x.hash(m.blobs[k].content));
      }
    }
  }

  lemma {:induction false} DroppedCovered(x: Library, s: Store, account: nat, rows: seq<DbRow>, rs: seq<ChatRow>,
                                          i: nat, j: nat)
    requires OnDisk(rows, account) && rs == Records(x, rows) && i < j < |rows|
    ensures rs[j].ns <= Watermark(rs[i].ns) <==> rows[j].ns <= ToNanos(ToMicros(rows[i].ns))
    ensures Covered(x, s, Stamped(rs)[..i + 1], Stamped(rs)[j]) <==> AddsNothing(x, s, account, rows, i, j)
  {
    CoveredIff(x, s, account, rows, i, j);
  }

  lemma {:induction false} DropsNothingIff(x: Library, s: Store, account: nat, rows: seq<DbRow>)
    requires OnDisk(rows, account)
    ensures NothingDropped(x, s, Records(x, rows)) <==> DropsNothing(x, s, account, rows)
  {
    var rs := Records(x, rows);
    if NothingDropped(x, s, rs) {
      forall i: nat, j: nat | i < j < |rows| && rows[j].ns <= ToNanos(ToMicros(rows[i].ns))
        ensures AddsNothing(x, s, account, rows, i, j)
      {
        DroppedCovered(x, s, account, rows, rs, i, j);
      }
    }
    if DropsNothing(x, s, account, rows) {
      forall i, j | 0 <= i < j < |rs| && rs[j].ns <= Watermark(rs[i].ns)
        ensures Covered(x, s, Stamped(rs)[..i + 1], Stamped(rs)[j])
      {
        DroppedCovered(x, s, account, rows, rs, i, j);
      }
    }
  }

  /** At every moment while chat.db grows to `rows`, whatever runs were stopped before, the database is, but for
      the status, that of one uninterrupted pass. */
  ghost predicate AlwaysOneRun(x: Library, s: Store, account: nat, rows: seq<DbRow>)
    requires account in s.accounts && OnDisk(rows, account)
  {
    RecordsAreForAccount(x, s, rows, account);
    AlwaysWhole(x, s, account, Records(x, rows))
  }

  /** With nobody else writing, stopped runs leave, at every moment and but for the status table, the whole
      database of one uninterrupted pass if and only if no row is dropped that has something of its own. */
  lemma {:induction false} ResumptionIsOneRun(x: Library, s: Store, account: nat, rows: seq<DbRow>)
    requires Fresh(s, account) && OnDisk(rows, account)
    ensures AlwaysOneRun(x, s, account, rows) <==> DropsNothing(x, s, account, rows)
  {
    RecordsAreFresh(x, s, rows, account);
    IMessageSync.ResumptionIsOneRun(x, s, account, Records(x, rows));
    DropsNothingIff(x, s, account, rows);
  }

  /** The condition on messages does not imply it: a message listed for two chats, of which the second has
      one more person. Stopped between the listings, the next run drops the second, and that person is
      never stored. */
  lemma {:induction false} ListedTwiceLosesPerson(x: Library, s: Store, account: nat, rows: seq<DbRow>, us: nat,
                                                  p: Ident) returns (hs: seq<Halted>)
    requires Fresh(s, account) && OnDisk(rows, account) && |rows| == 2 && us <= MAX_MICROS
    requires rows[0].ns == rows[1].ns == ToNanos(us) && rows[0].message.externalId == rows[1].message.externalId
    requires HasSomebody(x, rows[1].message, p) && !HasSomebody(x, rows[0].message, p) && p !in s.identifiers
    ensures RowsResumable(rows)
    ensures var log := Stamped(Records(x, rows));
            && AllOneFrom(log) && AllHalted(hs) && EndsWhole(hs, 2)
            && p !in AfterHalts(x, s, StartInTables(account, Records(x, rows)), log, hs).identifiers
            && p in SaveEach(x, s, log).store.identifiers
  {
    var log := Stamped(Records(x, rows));
    RecordsAreFresh(x, s, rows, account);
    RecordMentions(x, rows, 0, p);
    RecordMentions(x, rows, 1, p);
    var k :| 0 <= k < |log[1].parties| && log[1].parties[k].contact.ident == p;
    hs := IMessageSync.ListedTwiceLosesPerson(x, s, account, Records(x, rows), us, k);
    ResumableIff(x, s.accounts[account].source, rows);
  }
}
