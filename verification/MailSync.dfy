/** The mail sync loop (plugins/mail/sync.py with `fetch_uids` and `latest_imap_uid`): a mailbox that
    only grows, and a watermark computed from what was stored. What is said here is where a run begins;
    `SyncLoop` and `Interrupted` say what follows for runs that stop anywhere. */
module MailSync {
  import opened Prelude
  import opened Schema
  import opened Saving
  import opened ResumableLog
  import opened Archive
  import opened SyncLoop
  import opened Backfill
  import opened Interrupted

  // ---------------------------------------------------------------- searching the mailbox

  ghost predicate Ascending(uids: seq<nat>) {
    && (forall i :: 0 <= i < |uids| ==> uids[i] >= 1)
    && (forall i, j :: 0 <= i < j < |uids| ==> uids[i] < uids[j])
  }

  /** The UIDs from `uid` upwards. */
  function AtLeast(uids: seq<nat>, uid: nat): seq<nat>
    decreases |uids|
  {
    if uids == [] then [] else
      var front, last := AtLeast(uids[..|uids| - 1], uid), uids[|uids| - 1];
      if last >= uid then front + [last] else front
  }

  /** The lowest UID asked for. `ALL` when there is no watermark; otherwise the range `n:*`, which
      always contains the last message because `*` is the largest UID in use (RFC 3501, section 6.4.8). */
  function LowestAsked(uids: seq<nat>, since: nat): nat {
    if since == 0 || uids == [] then 0 else
      var largest := uids[|uids| - 1];
      if since + 1 <= largest then since + 1 else largest
  }

  /** How many leading UIDs lie below `uid`. */
  function Below(uids: seq<nat>, uid: nat): (n: nat)
    ensures n <= |uids|
    decreases |uids|
  {
    if uids == [] then 0
    else if uids[|uids| - 1] < uid then |uids|
    else Below(uids[..|uids| - 1], uid)
  }

  /** Where in the mailbox the search result begins. */
  function Start(uids: seq<nat>, since: nat): (n: nat)
    ensures n <= |uids|
  {
    Below(uids, LowestAsked(uids, since))
  }

  lemma {:induction false} BelowSplits(uids: seq<nat>, uid: nat)
    requires Ascending(uids)
    ensures forall i :: 0 <= i < |uids| ==> (i < Below(uids, uid) <==> uids[i] < uid)
    decreases |uids|
  {
    if uids != [] && uids[|uids| - 1] >= uid {
      var front := uids[..|uids| - 1];
      assert uids == front + [uids[|uids| - 1]];
      BelowSplits(front, uid);
    }
  }

  /** The messages the server reports are the mailbox from `Start` on. */
  lemma {:induction false} SearchIsSuffix(uids: seq<nat>, uid: nat)
    requires Ascending(uids)
    ensures AtLeast(uids, uid) == uids[Below(uids, uid)..]
    decreases |uids|
  {
    if uids != [] {
      var front, last := uids[..|uids| - 1], uids[|uids| - 1];
      assert uids == front + [last];
      SearchIsSuffix(front, uid);
      BelowSplits(uids, uid);
      BelowSplits(front, uid);
      if last < uid {
        assert forall i :: 0 <= i < |front| ==> front[i] == uids[i];
        assert Below(front, uid) == |front|;
      }
    }
  }

  // ---------------------------------------------------------------- the watermark of an archive

  type Row = Entry<Message>

  /** The server's messages of one mailbox, oldest first: UIDs are positive and strictly ascending
      (RFC 3501, section 2.3.1.1), and new arrivals are appended. */
  ghost predicate Mailbox(log: seq<Row>, mailbox: string) {
    && (forall i :: 0 <= i < |log| ==> log[i].value.detail.EmailDetails? && log[i].value.detail.mailbox == mailbox)
    && Ascending(UidsOf(log))
  }

  function UidOf(e: Row): nat {
    if e.value.detail.EmailDetails? then e.value.detail.uid else 0
  }

  function UidsOf(log: seq<Row>): (uids: seq<nat>)
    ensures |uids| == |log|
  {
    seq(|log|, k requires 0 <= k < |log| => UidOf(log[k]))
  }

  predicate InMailbox(row: Message, mailbox: string) {
    row.detail.EmailDetails? && row.detail.mailbox == mailbox
  }

  function UidsIn(rows: set<Message>, mailbox: string): set<nat> {
    set row | row in rows && InMailbox(row, mailbox) :: row.detail.uid
  }

  /** `latest_imap_uid(...) or 0`, over an archive. */
  ghost function Watermark(a: map<string, Message>, mailbox: string): nat {
    MaxOf(UidsIn(a.Values, mailbox))
  }

  /** The watermark is the UID of an archived message, or 0 when nothing is archived. */
  lemma {:induction false} WatermarkInPrefix(mailbox: string, log: seq<Row>, k: nat)
    requires Mailbox(log, mailbox) && k <= |log|
    ensures var w := Watermark(Keep(log[..k]), mailbox);
            if k == 0 then w == 0 else exists i :: 0 <= i < k && w == UidsOf(log)[i]
  {
    var a := Keep(log[..k]);
    var uids := UidsIn(a.Values, mailbox);
    forall u | u in uids ensures exists i :: 0 <= i < k && u == UidsOf(log)[i] {
      var row :| row in a.Values && InMailbox(row, mailbox) && row.detail.uid == u;
      var e :| e in a && a[e] == row;
      var i := KeepSource(log[..k], e);
      assert UidsOf(log)[i] == u;
    }
    if k > 0 {
      FirstWins(log[..k], 0);
      var row := a[log[0].key];
      assert row in a.Values && InMailbox(row, mailbox);
      assert row.detail.uid in uids;
    }
  }

  /** The search never starts after the end of the archived prefix. */
  lemma {:induction false} StartsInPrefix(mailbox: string, log: seq<Row>, k: nat, visible: nat)
    requires Mailbox(log, mailbox) && k <= |log| && visible <= |log|
    ensures Start(UidsOf(log)[..visible], Watermark(Keep(log[..k]), mailbox)) <= k
  {
    var uids := UidsOf(log);
    var w := Watermark(Keep(log[..k]), mailbox);
    var asked := LowestAsked(uids[..visible], w);
    WatermarkInPrefix(mailbox, log, k);
    BelowSplits(uids[..visible], asked);
    if k < visible {
      assert uids[..visible][k] == uids[k];
      assert asked <= w + 1 && (w == 0 ==> asked == 0);
      assert w < uids[k];
    }
  }

  /** Where a run begins among the visible messages, given the archive. */
  ghost function StartInArchive(mailbox: string, log: seq<Row>): ArchiveStart {
    (a: map<string, Message>, seen: nat) => Start(UidsOf(log)[..AtMost(seen, |log|)], Watermark(a, mailbox))
  }

  /** So every run begins within the part of the mailbox that is archived. */
  lemma {:induction false} StartIsHarmless(mailbox: string, log: seq<Row>)
    requires Mailbox(log, mailbox)
    ensures Harmless(StartInArchive(mailbox, log), log)
  {
    forall k: nat, seen: nat | k <= |log| && seen <= |log|
      ensures SkipsNothing(StartInArchive(mailbox, log), log, k, seen)
    {
      StartsInPrefix(mailbox, log, k, seen);
      assert AtMost(seen, |log|) == seen;
    }
  }

  /** Everything up to the watermark of an archived prefix is archived. */
  lemma {:induction false} ArchivedBelowWatermark(mailbox: string, log: seq<Row>, k: nat, i: nat)
    requires Mailbox(log, mailbox) && i < |log| && k <= |log|
    requires UidOf(log[i]) <= Watermark(Keep(log[..k]), mailbox)
    ensures log[i].key in Keep(log[..k])
  {
    WatermarkInPrefix(mailbox, log, k);
    assert UidsOf(log)[i] == UidOf(log[i]);
    assert i < k;
    PutAllKeys(map[], log[..k]);
    assert log[..k][i].key == log[i].key;
  }

  /** A longer prefix has no lower watermark. */
  lemma {:induction false} WatermarkGrows(mailbox: string, log: seq<Row>, k: nat, n: nat)
    requires Mailbox(log, mailbox) && k <= n <= |log|
    ensures Watermark(Keep(log[..k]), mailbox) <= Watermark(Keep(log[..n]), mailbox)
  {
    KeepGrows(log, k, n);
    var a, b := Keep(log[..k]), Keep(log[..n]);
    forall row | row in a.Values ensures row in b.Values {
      var e :| e in a && a[e] == row;
      assert e in b && b[e] == row;
    }
    assert UidsIn(a.Values, mailbox) <= UidsIn(b.Values, mailbox);
  }

  // ---------------------------------------------------------------- on the tables

  function RowsOf(s: Store, account: nat): set<Message> {
    set m | m in s.messages && s.messages[m].account == account :: s.messages[m]
  }

  /** `Storage.latest_imap_uid`. */
  function LatestUid(s: Store, account: nat, mailbox: string): Option<nat> {
    var uids := UidsIn(RowsOf(s, account), mailbox);
    if uids == {} then None else Some(MaxOf(uids))
  }

  /** Message `m` is a mail stored for the account and mailbox. */
  predicate StoredIn(s: Store, account: nat, mailbox: string, m: nat) {
    m in s.messages && s.messages[m].account == account && InMailbox(s.messages[m], mailbox)
  }

  /** `uid` is stored and no larger one is; None exactly when nothing is stored. */
  ghost predicate IsLatestUid(s: Store, account: nat, mailbox: string, uid: Option<nat>) {
    && (uid.None? <==> forall m :: !StoredIn(s, account, mailbox, m))
    && (uid.Some? ==> exists m :: StoredIn(s, account, mailbox, m) && s.messages[m].detail.uid == uid.value)
    && (uid.Some? ==> forall m :: StoredIn(s, account, mailbox, m) ==> s.messages[m].detail.uid <= uid.value)
  }

  lemma {:induction false} LatestUidIsLatest(s: Store, account: nat, mailbox: string)
    ensures IsLatestUid(s, account, mailbox, LatestUid(s, account, mailbox))
  {
    var uids := UidsIn(RowsOf(s, account), mailbox);
    forall m | StoredIn(s, account, mailbox, m) ensures s.messages[m].detail.uid in uids {
      assert s.messages[m] in RowsOf(s, account);
    }
    if uids != {} {
      var row :| row in RowsOf(s, account) && InMailbox(row, mailbox) && row.detail.uid == MaxOf(uids);
      var m :| m in s.messages && s.messages[m].account == account && s.messages[m] == row;
      assert StoredIn(s, account, mailbox, m);
    }
  }

  /** `latest_imap_uid(...) or 0`. */
  function Since(s: Store, account: nat, mailbox: string): nat {
    var latest := LatestUid(s, account, mailbox);
    if latest.None? then 0 else latest.value
  }

  /** Where a run of `sync_account_mailbox` begins; `log` holds the parsed messages. */
  function StartInTables(account: nat, mailbox: string, log: seq<Incoming>): TableStart {
    (s: Store, seen: nat) => Start(UidsOf(Entries("", log))[..AtMost(seen, |log|)], Since(s, account, mailbox))
  }

  lemma {:induction false} SyncVisits(s: Store, account: nat, mailbox: string, log: seq<Incoming>, stop: nat,
                                      since: nat)
    requires since == Since(s, account, mailbox)
    ensures var from := Start(UidsOf(Entries("", log)), since);
            Visited(StartInTables(account, mailbox, log), s, log, Pass(|log|, stop))
            == log[from..from + AtMost(stop, |log| - from)]
  {
    assert UidsOf(Entries("", log))[..|log|] == UidsOf(Entries("", log));
  }

  lemma {:induction false} RowInArchive(s: Store, account: nat, m: nat)
    requires UniqueKeys(s) && m in s.messages && s.messages[m].account == account
    ensures var e := s.messages[m].externalId; RowNamed(s, account, e) == Some(s.messages[m])
  {
    var found := MessagesNamed(s.messages, account, s.messages[m].externalId);
    assert m in found;
    assert SameMessage(s.messages[MaxOf(found)], s.messages[m]);
  }

  lemma {:induction false} ArchiveFromRow(s: Store, account: nat, e: string)
    requires e in Archived(s, account)
    ensures Archived(s, account)[e] in RowsOf(s, account)
  {
    var m := MaxOf(MessagesNamed(s.messages, account, e));
    assert m in MessagesNamed(s.messages, account, e);
  }

  /** Under the unique key the account's rows are exactly the archive's values. */
  lemma {:induction false} RowsAreArchived(s: Store, account: nat)
    requires UniqueKeys(s)
    ensures Archived(s, account).Values == RowsOf(s, account)
  {
    var a := Archived(s, account);
    forall row | row in RowsOf(s, account) ensures row in a.Values {
      var m :| m in s.messages && s.messages[m].account == account && s.messages[m] == row;
      RowInArchive(s, account, m);
      LookUp(s, account, row.externalId);
      assert a[row.externalId] == row;
    }
    forall row | row in a.Values ensures row in RowsOf(s, account) {
      var e :| e in a && a[e] == row;
      ArchiveFromRow(s, account, e);
    }
  }

  /** No earlier message of the log has this one's external id. */
  ghost predicate FirstOfIts(log: seq<Incoming>, i: nat) {
    i < |log| && forall h :: 0 <= h < i ==> log[h].externalId != log[i].externalId
  }

  lemma {:induction false} FirstNamed(log: seq<Incoming>, j: nat) returns (i: nat)
    requires j < |log|
    ensures FirstOfIts(log, i) && log[i].externalId == log[j].externalId
    decreases j
  {
    if h :| 0 <= h < j && log[h].externalId == log[j].externalId {
      i := FirstNamed(log, h);
    } else {
      i := j;
    }
  }

  lemma {:induction false} FirstIsKept(source: string, log: seq<Incoming>, i: nat)
    requires FirstOfIts(log, i)
    ensures var a := Keep(Entries(source, log)); log[i].externalId in a && a[log[i].externalId] == RowOf(source, log[i])
  {
    FirstWins(Entries(source, log), i);
  }

  /** With a log archived, each of the account's rows is that of the first message of its external id. */
  lemma {:induction false} RowIsFirst(t: Store, account: nat, source: string, log: seq<Incoming>, m: nat)
      returns (i: nat)
    requires UniqueKeys(t) && Archived(t, account) == Keep(Entries(source, log))
    requires m in t.messages && t.messages[m].account == account
    ensures FirstOfIts(log, i) && t.messages[m] == RowOf(source, log[i])
  {
    var e := t.messages[m].externalId;
    RowInArchive(t, account, m);
    LookUp(t, account, e);
    var j := KeepSource(Entries(source, log), e);
    i := FirstNamed(log, j);
    FirstIsKept(source, log, i);
  }

  /** And each such message has its row. */
  lemma {:induction false} FirstHasRow(t: Store, account: nat, source: string, log: seq<Incoming>, i: nat)
      returns (m: nat)
    requires Archived(t, account) == Keep(Entries(source, log)) && FirstOfIts(log, i)
    ensures m in t.messages && t.messages[m].account == account && t.messages[m] == RowOf(source, log[i])
  {
    FirstIsKept(source, log, i);
    ArchiveFromRow(t, account, log[i].externalId);
    m :| m in t.messages && t.messages[m].account == account
      && t.messages[m] == Archived(t, account)[log[i].externalId];
  }

  lemma {:induction false} SinceIsWatermark(s: Store, account: nat, mailbox: string)
    requires UniqueKeys(s)
    ensures Since(s, account, mailbox) == Watermark(Archived(s, account), mailbox)
  {
    RowsAreArchived(s, account);
  }

  lemma {:induction false} SameUids(source: string, log: seq<Incoming>)
    ensures UidsOf(Entries("", log)) == UidsOf(Entries(source, log))
  {
    forall k | 0 <= k < |log| ensures UidsOf(Entries("", log))[k] == UidsOf(Entries(source, log))[k] {}
  }

  lemma {:induction false} StartsAgree(account: nat, mailbox: string, source: string, log: seq<Incoming>)
    ensures ReadsArchive(StartInTables(account, mailbox, log), StartInArchive(mailbox, Entries(source, log)), account)
  {
    SameUids(source, log);
    forall s: Store, n: nat | Valid(s)
      ensures StartInTables(account, mailbox, log)(s, n)
           == StartInArchive(mailbox, Entries(source, log))(Archived(s, account), n)
    {
      SinceIsWatermark(s, account, mailbox);
    }
  }

  /** The premises of the results below: an account with nothing stored, and its mailbox. */
  ghost predicate FreshAccount(s: Store, account: nat, mailbox: string, log: seq<Incoming>) {
    && Valid(s) && ForAccount(s, account, log) && Archived(s, account) == map[]
    && Mailbox(Entries(s.accounts[account].source, log), mailbox)
  }

  /** The account holds a prefix of its mailbox after any runs, and all of it after a complete one. */
  lemma {:induction false} HoldsPrefix(x: Library, s: Store, account: nat, mailbox: string, log: seq<Incoming>,
                                       rs: seq<Shared>) returns (k: nat)
    requires FreshAccount(s, account, mailbox, log) && AllMine(account, rs)
    ensures Owned(account, log) && k <= |log|
    ensures var source := s.accounts[account].source;
            Holds(AfterShared(x, s, account, StartInTables(account, mailbox, log), log, rs), account, source,
                  Keep(Entries(source, log)[..k]))
    ensures Completes(x, s, account, StartInTables(account, mailbox, log), log, rs) ==> k == |log|
  {
    var source := s.accounts[account].source;
    StartsAgree(account, mailbox, source, log);
    StartIsHarmless(mailbox, Entries(source, log));
    k := SharedKeepPrefix(x, s, account, StartInTables(account, mailbox, log),
                          StartInArchive(mailbox, Entries(source, log)), log, rs);
  }

  /** And after a complete run exactly what one pass over the mailbox archives. */
  lemma {:induction false} CompleteKeepsAll(x: Library, s: Store, account: nat, mailbox: string,
                                                    log: seq<Incoming>, rs: seq<Shared>)
    requires FreshAccount(s, account, mailbox, log) && AllMine(account, rs) && Owned(account, log)
    requires Completes(x, s, account, StartInTables(account, mailbox, log), log, rs)
    ensures Archived(AfterShared(x, s, account, StartInTables(account, mailbox, log), log, rs), account)
         == Keep(Entries(s.accounts[account].source, log))
  {
    var k := HoldsPrefix(x, s, account, mailbox, log, rs);
    assert Entries(s.accounts[account].source, log)[..|log|] == Entries(s.accounts[account].source, log);
  }

  lemma {:induction false} SameSince(s: Store, t: Store, account: nat, mailbox: string)
    requires s.messages == t.messages
    ensures Since(s, account, mailbox) == Since(t, account, mailbox)
  {
    assert RowsOf(s, account) == RowsOf(t, account);
  }

  lemma {:induction false} SeesRows(account: nat, mailbox: string, log: seq<Incoming>)
    ensures SeesMessages(StartInTables(account, mailbox, log))
  {
    forall s: Store, t: Store, n: nat | s.messages == t.messages
      ensures StartInTables(account, mailbox, log)(s, n) == StartInTables(account, mailbox, log)(t, n)
    {
      SameSince(s, t, account, mailbox);
    }
  }

  lemma {:induction false} StartsWithin(u: Store, account: nat, mailbox: string, source: string, log: seq<Incoming>,
                                        k: nat, seen: nat)
    requires UniqueKeys(u) && Mailbox(Entries(source, log), mailbox) && k <= |log| && seen <= |log|
    requires Archived(u, account) == Keep(Entries(source, log)[..k])
    ensures StartInTables(account, mailbox, log)(u, seen) <= k
  {
    SinceIsWatermark(u, account, mailbox);
    SameUids(source, log);
    StartsInPrefix(mailbox, Entries(source, log), k, seen);
    assert AtMost(seen, |log|) == seen;
  }

  /** With a prefix stored a run omits nothing. */
  lemma {:induction false} OmitsNothing(x: Library, s: Store, account: nat, mailbox: string, log: seq<Incoming>, k: nat,
                                        seen: nat)
    requires FreshAccount(s, account, mailbox, log) && k <= |log| && seen <= |log|
    ensures StartInTables(account, mailbox, log)(Upto(x, s, log, k), seen) <= k
  {
    UptoIsValid(x, s, account, log, k);
    ArchivedUpto(x, s, account, log, k);
    StartsWithin(Upto(x, s, log, k), account, mailbox, s.accounts[account].source, log, k, seen);
  }

  lemma {:induction false} RunsOmitNothing(x: Library, s: Store, account: nat, mailbox: string, log: seq<Incoming>)
    requires FreshAccount(s, account, mailbox, log)
    ensures NeverOmits(x, s, StartInTables(account, mailbox, log), log)
  {
    forall k: nat, seen: nat | k <= |log| && seen <= |log|
      ensures OmitsSettled(x, s, StartInTables(account, mailbox, log), log, k, seen)
    {
      OmitsNothing(x, s, account, mailbox, log, k, seen);
    }
  }

  lemma {:induction false} FirstRunVisitsAll(s: Store, account: nat, mailbox: string, log: seq<Incoming>)
    requires FreshAccount(s, account, mailbox, log)
    ensures Visited(StartInTables(account, mailbox, log), s, log, Pass(|log|, |log|)) == log
  {
    assert Entries(s.accounts[account].source, log)[..0] == [];
    StartsWithin(s, account, mailbox, s.accounts[account].source, log, 0, |log|);
  }

  /** With nobody else writing, the whole database is that of one uninterrupted run, but for the status. */
  lemma {:induction false} AloneIsOneRun(x: Library, s: Store, account: nat, mailbox: string, log: seq<Incoming>)
    requires FreshAccount(s, account, mailbox, log)
    ensures Visited(StartInTables(account, mailbox, log), s, log, Pass(|log|, |log|)) == log
    ensures AllOneFrom(log) && WholeAfterAny(x, s, StartInTables(account, mailbox, log), log)
  {
    SeesRows(account, mailbox, log);
    RunsOmitNothing(x, s, account, mailbox, log);
    WholeWhenSettled(x, s, account, StartInTables(account, mailbox, log), log);
    FirstRunVisitsAll(s, account, mailbox, log);
  }
}
