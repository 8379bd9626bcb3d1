/** The mail sync loop against what the server holds: one mailbox of one account, as messages with UIDs, and
    what the tables hold of it after any runs. */
module MailServer {
  import opened Prelude
  import opened Schema
  import opened Saving
  import opened Stored
  import opened ResumableLog
  import opened Archive
  import opened SyncLoop
  import opened Interrupted
  import opened MailSync

  /** The server's messages of one mailbox, oldest first: UIDs are positive and strictly ascending (RFC 3501,
      section 2.3.1.1), and new arrivals are appended. */
  ghost predicate OnServer(server: seq<EmailMessage>, account: nat, mailbox: string) {
    && (forall i :: 0 <= i < |server| ==>
          server[i].account == account && server[i].mailbox == mailbox && server[i].uid >= 1)
    && (forall i, j :: 0 <= i < j < |server| ==> server[i].uid < server[j].uid)
  }

  // ---------------------------------------------------------------- parsing

  lemma {:induction false} ParsedIsOwned(x: Library, server: seq<EmailMessage>, account: nat, mailbox: string)
    requires OnServer(server, account, mailbox)
    ensures Owned(account, FromEmails(x, server))
  {
  }

  lemma {:induction false} ParsedUids(x: Library, source: string, server: seq<EmailMessage>)
    ensures UidsOf(Entries(source, FromEmails(x, server)))
         == seq(|server|, k requires 0 <= k < |server| => server[k].uid)
  {
    var uids := UidsOf(Entries(source, FromEmails(x, server)));
    forall k | 0 <= k < |server| ensures uids[k] == server[k].uid {
      assert Entries(source, FromEmails(x, server))[k] == EntryOf(source, FromEmail(x, server[k]));
    }
  }

  lemma {:induction false} ParsedIsMailbox(x: Library, source: string, server: seq<EmailMessage>, account: nat,
                                           mailbox: string)
    requires OnServer(server, account, mailbox)
    ensures Mailbox(Entries(source, FromEmails(x, server)), mailbox)
  {
    var log := Entries(source, FromEmails(x, server));
    ParsedUids(x, source, server);
    forall i | 0 <= i < |log| ensures log[i].value.detail.EmailDetails? && log[i].value.detail.mailbox == mailbox {
      assert log[i] == EntryOf(source, FromEmail(x, server[i]));
    }
  }

  /** What the loop's results ask of the parsed messages follows from the server's. */
  lemma {:induction false} ParsedIsFresh(x: Library, s: Store, server: seq<EmailMessage>, account: nat, mailbox: string)
    requires Fresh(s, account) && OnServer(server, account, mailbox)
    ensures FreshAccount(s, account, mailbox, FromEmails(x, server))
  {
    NothingArchived(s, account);
    ParsedIsMailbox(x, s.accounts[account].source, server, account, mailbox);
  }

  // ---------------------------------------------------------------- what a run asks for

  /** A run asks for the messages from `from` on: all of them when nothing is stored, else those above the
      largest stored UID, or only the last when there are none. */
  ghost predicate AsksFrom(server: seq<EmailMessage>, latest: Option<nat>, from: nat) {
    && from <= |server| && (latest.None? || latest.value == 0 ==> from == 0)
    && (latest.Some? && latest.value > 0 && server != [] ==>
          if server[|server| - 1].uid <= latest.value then from == |server| - 1
          else forall i :: 0 <= i < |server| ==> (from <= i <==> server[i].uid > latest.value))
  }

  lemma {:induction false} AskedFrom(uids: seq<nat>, since: nat)
    requires Ascending(uids)
    ensures since == 0 ==> Start(uids, since) == 0
    ensures since > 0 && uids != [] && uids[|uids| - 1] <= since ==> Start(uids, since) == |uids| - 1
    ensures since > 0 && uids != [] && uids[|uids| - 1] > since ==>
              forall i :: 0 <= i < |uids| ==> (Start(uids, since) <= i <==> uids[i] > since)
  {
    var asked, n := LowestAsked(uids, since), Start(uids, since);
    BelowSplits(uids, asked);
    if uids != [] {
      assert 0 < n <==> uids[0] < asked;
      assert |uids| - 1 < n <==> uids[|uids| - 1] < asked;
      if |uids| > 1 { assert |uids| - 2 < n <==> uids[|uids| - 2] < asked; }
    }
  }

  lemma {:induction false} AsksBy(server: seq<EmailMessage>, account: nat, mailbox: string, uids: seq<nat>,
                                  latest: Option<nat>)
    requires OnServer(server, account, mailbox) && |uids| == |server|
    requires forall k :: 0 <= k < |server| ==> uids[k] == server[k].uid
    ensures AsksFrom(server, latest, Start(uids, if latest.None? then 0 else latest.value))
  {
    AskedFrom(uids, if latest.None? then 0 else latest.value);
  }

  lemma {:induction false} StartsAt(s: Store, account: nat, mailbox: string, log: seq<Incoming>, seen: nat)
    requires seen <= |log|
    ensures StartInTables(account, mailbox, log)(s, seen)
         == Start(UidsOf(Entries("", log))[..seen], Since(s, account, mailbox))
  {
    assert AtMost(seen, |log|) == seen;
  }

  /** Among the messages that have arrived, a run begins where it asks from. */
  lemma {:induction false} RunAsks(x: Library, s: Store, account: nat, mailbox: string, server: seq<EmailMessage>,
                                   seen: nat)
    requires OnServer(server, account, mailbox) && seen <= |server|
    ensures AsksFrom(server[..seen], LatestUid(s, account, mailbox),
                     StartInTables(account, mailbox, FromEmails(x, server))(s, seen))
  {
    var log := FromEmails(x, server);
    var uids := UidsOf(Entries("", log));
    StartsAt(s, account, mailbox, log, seen);
    ParsedUids(x, "", server);
    AsksBy(server[..seen], account, mailbox, uids[..seen], LatestUid(s, account, mailbox));
  }

  // ---------------------------------------------------------------- any runs

  /** The tables after the runs. */
  ghost function AfterMail(x: Library, s: Store, account: nat, mailbox: string, server: seq<EmailMessage>,
                           rs: seq<Shared>): Store
    requires AllMine(account, rs) && OnServer(server, account, mailbox)
  {
    ParsedIsOwned(x, server, account, mailbox);
    AfterShared(x, s, account, StartInTables(account, mailbox, FromEmails(x, server)), FromEmails(x, server), rs)
  }

  /** The last run saw the whole mailbox, was not cut, and none of its saves was refused. */
  ghost predicate MailCompletes(x: Library, s: Store, account: nat, mailbox: string, server: seq<EmailMessage>,
                                rs: seq<Shared>)
    requires AllMine(account, rs) && OnServer(server, account, mailbox)
  {
    ParsedIsOwned(x, server, account, mailbox);
    Completes(x, s, account, StartInTables(account, mailbox, FromEmails(x, server)), FromEmails(x, server), rs)
  }

  /** No message before it has its Message-ID. */
  ghost predicate IsFirst(server: seq<EmailMessage>, i: nat) {
    i < |server| && forall h :: 0 <= h < i ==> server[h].externalId != server[i].externalId
  }

  ghost predicate RowFromServer(row: Message, source: string, server: seq<EmailMessage>) {
    exists i: nat :: IsFirst(server, i) && IsMail(row, server[i], source)
  }

  ghost predicate RowInTables(t: Store, source: string, m: EmailMessage) {
    exists id :: id in t.messages && IsMail(t.messages[id], m, source)
  }

  /** The account's rows are those of the first message of each Message-ID, no more and no fewer. */
  ghost predicate HoldsFirsts(t: Store, account: nat, source: string, server: seq<EmailMessage>) {
    && Valid(t)
    && (forall id :: id in t.messages && t.messages[id].account == account ==>
          RowFromServer(t.messages[id], source, server))
    && (forall i: nat :: IsFirst(server, i) ==> RowInTables(t, source, server[i]))
  }

  lemma {:induction false} FirstParsed(x: Library, server: seq<EmailMessage>, i: nat)
    ensures IsFirst(server, i) <==> FirstOfIts(FromEmails(x, server), i)
  {
    var log := FromEmails(x, server);
    assert forall h :: 0 <= h < |server| ==> log[h].externalId == server[h].externalId;
  }

  lemma {:induction false} KeptAreFirsts(x: Library, t: Store, account: nat, source: string, server: seq<EmailMessage>)
    requires Valid(t) && Archived(t, account) == Keep(Entries(source, FromEmails(x, server)))
    ensures HoldsFirsts(t, account, source, server)
  {
    forall id | id in t.messages && t.messages[id].account == account
      ensures RowFromServer(t.messages[id], source, server)
    {
      var i := RowIsFirst(t, account, source, FromEmails(x, server), id);
      FirstParsed(x, server, i);
      assert IsMail(t.messages[id], server[i], source);
    }
    forall i: nat | IsFirst(server, i) ensures RowInTables(t, source, server[i]) {
      FirstParsed(x, server, i);
      var id := FirstHasRow(t, account, source, FromEmails(x, server), i);
      assert IsMail(t.messages[id], server[i], source);
    }
  }

  lemma {:induction false} ParsedPrefix(x: Library, source: string, server: seq<EmailMessage>, k: nat)
    requires k <= |server|
    ensures Entries(source, FromEmails(x, server))[..k] == Entries(source, FromEmails(x, server[..k]))
  {
    var a, b := Entries(source, FromEmails(x, server))[..k], Entries(source, FromEmails(x, server[..k]));
    assert |a| == |b| && forall i :: 0 <= i < k ==> a[i] == b[i];
  }

  /** After any runs, each stopped anywhere while mail kept arriving and others wrote before any of its steps,
      the account holds the mailbox up to some point, and all of it once a run completes. */
  lemma {:induction false} AlwaysPrefix(x: Library, s: Store, account: nat, mailbox: string, server: seq<EmailMessage>,
                                        rs: seq<Shared>) returns (k: nat)
    requires Fresh(s, account) && OnServer(server, account, mailbox) && AllMine(account, rs)
    ensures k <= |server|
    ensures HoldsFirsts(AfterMail(x, s, account, mailbox, server, rs), account, s.accounts[account].source, server[..k])
    ensures MailCompletes(x, s, account, mailbox, server, rs) ==> k == |server|
  {
    var log, source := FromEmails(x, server), s.accounts[account].source;
    ParsedIsFresh(x, s, server, account, mailbox);
    k := HoldsPrefix(x, s, account, mailbox, log, rs);
    ParsedPrefix(x, source, server, k);
    KeptAreFirsts(x, AfterMail(x, s, account, mailbox, server, rs), account, source, server[..k]);
  }

  /** Resumption equals backfill: after a complete run exactly the rows of one pass over the mailbox are
      there, whatever was stopped before. */
  lemma {:induction false} ResumptionEqualsBackfill(x: Library, s: Store, account: nat, mailbox: string,
                                                    server: seq<EmailMessage>, rs: seq<Shared>)
    requires Fresh(s, account) && OnServer(server, account, mailbox) && AllMine(account, rs)
    requires MailCompletes(x, s, account, mailbox, server, rs)
    ensures HoldsFirsts(AfterMail(x, s, account, mailbox, server, rs), account, s.accounts[account].source, server)
  {
    var k := AlwaysPrefix(x, s, account, mailbox, server, rs);
    assert server[..|server|] == server;
  }

  lemma {:induction false} FirstInLonger(front: seq<EmailMessage>, server: seq<EmailMessage>, h: nat)
    requires front <= server && IsFirst(front, h)
    ensures server[h] == front[h] && IsFirst(server, h)
  {
    forall g | 0 <= g < h ensures server[g].externalId != server[h].externalId {
      assert front[g] == server[g] && front[h] == server[h];
    }
  }

  lemma {:induction false} FirstComesFirst(server: seq<EmailMessage>, h: nat, i: nat)
    requires IsFirst(server, h) && i < |server| && server[i].externalId == server[h].externalId
    ensures h <= i
  {
  }

  lemma {:induction false} RowHasPlace(t: Store, account: nat, source: string, front: seq<EmailMessage>,
                                       server: seq<EmailMessage>, id: nat) returns (h: nat)
    requires HoldsFirsts(t, account, source, front) && front <= server
    requires id in t.messages && t.messages[id].account == account
    ensures h < |front| && IsFirst(server, h) && IsMail(t.messages[id], server[h], source)
  {
    assert RowFromServer(t.messages[id], source, front);
    h :| IsFirst(front, h) && IsMail(t.messages[id], front[h], source);
    FirstInLonger(front, server, h);
  }

  lemma {:induction false} FirstIsLowest(t: Store, account: nat, mailbox: string, source: string,
                                         front: seq<EmailMessage>, server: seq<EmailMessage>, id: nat, i: nat)
    requires HoldsFirsts(t, account, source, front) && front <= server && OnServer(server, account, mailbox)
    requires StoredIn(t, account, mailbox, id) && i < |server| && server[i].externalId == t.messages[id].externalId
    ensures t.messages[id].detail.uid <= server[i].uid
  {
    var h := RowHasPlace(t, account, source, front, server, id);
    FirstComesFirst(server, h, i);
    assert h == i || server[h].uid < server[i].uid;
  }

  /** Of several messages with one Message-ID the one with the lowest UID is kept. */
  lemma {:induction false} LowestUidWins(x: Library, s: Store, account: nat, mailbox: string,
                                         server: seq<EmailMessage>, rs: seq<Shared>, id: nat, i: nat)
    requires Fresh(s, account) && OnServer(server, account, mailbox) && AllMine(account, rs)
    requires var t := AfterMail(x, s, account, mailbox, server, rs);
             && StoredIn(t, account, mailbox, id)
             && i < |server| && server[i].externalId == t.messages[id].externalId
    ensures AfterMail(x, s, account, mailbox, server, rs).messages[id].detail.uid <= server[i].uid
  {
    var k := AlwaysPrefix(x, s, account, mailbox, server, rs);
    FirstIsLowest(AfterMail(x, s, account, mailbox, server, rs), account, mailbox, s.accounts[account].source,
                  server[..k], server, id, i);
  }

  lemma {:induction false} FirstWithId(server: seq<EmailMessage>, j: nat) returns (i: nat)
    requires j < |server|
    ensures i <= j && IsFirst(server, i) && server[i].externalId == server[j].externalId
    decreases j
  {
    if h :| 0 <= h < j && server[h].externalId == server[j].externalId {
      i := FirstWithId(server, h);
    } else {
      i := j;
    }
  }

  lemma {:induction false} PlaceIsKnown(t: Store, account: nat, mailbox: string, source: string,
                                        front: seq<EmailMessage>, server: seq<EmailMessage>, i: nat)
    requires HoldsFirsts(t, account, source, front) && front <= server && OnServer(server, account, mailbox)
    requires i < |front|
    ensures Known(t, account, server[i].externalId)
  {
    var first := FirstWithId(front, i);
    assert RowInTables(t, source, front[first]);
    var row :| row in t.messages && IsMail(t.messages[row], front[first], source);
    assert NamedSo(t, account, server[i].externalId, row);
  }

  /** Whenever a message is stored, so is every one with a lower UID. */
  lemma {:induction false} NothingBelowWatermarkIsMissing(x: Library, s: Store, account: nat, mailbox: string,
                                                          server: seq<EmailMessage>, rs: seq<Shared>, id: nat, i: nat)
    requires Fresh(s, account) && OnServer(server, account, mailbox) && AllMine(account, rs) && i < |server|
    requires var t := AfterMail(x, s, account, mailbox, server, rs);
             StoredIn(t, account, mailbox, id) && server[i].uid <= t.messages[id].detail.uid
    ensures Known(AfterMail(x, s, account, mailbox, server, rs), account, server[i].externalId)
  {
    var k := AlwaysPrefix(x, s, account, mailbox, server, rs);
    var t, source := AfterMail(x, s, account, mailbox, server, rs), s.accounts[account].source;
    var h := RowHasPlace(t, account, source, server[..k], server, id);
    assert i <= h;
    PlaceIsKnown(t, account, mailbox, source, server[..k], server, i);
  }

  lemma {:induction false} LogStartsAgree(x: Library, s: Store, account: nat, mailbox: string,
                                          server: seq<EmailMessage>)
    requires Fresh(s, account) && OnServer(server, account, mailbox)
    ensures var log, source := FromEmails(x, server), s.accounts[account].source;
            && ReadsArchive(StartInTables(account, mailbox, log), StartInArchive(mailbox, Entries(source, log)),
                            account)
            && Harmless(StartInArchive(mailbox, Entries(source, log)), Entries(source, log))
  {
    var log, source := FromEmails(x, server), s.accounts[account].source;
    ParsedIsMailbox(x, source, server, account, mailbox);
    StartsAgree(account, mailbox, source, log);
    StartIsHarmless(mailbox, Entries(source, log));
  }

  lemma {:induction false} LongerHoldsMore(t: Store, u: Store, account: nat, mailbox: string, log: seq<MailSync.Row>,
                                           k: nat, n: nat)
    requires Valid(t) && Valid(u) && Mailbox(log, mailbox) && k <= n <= |log|
    requires Archived(t, account) == Keep(log[..k]) && Archived(u, account) == Keep(log[..n])
    ensures Since(t, account, mailbox) <= Since(u, account, mailbox)
  {
    SinceIsWatermark(t, account, mailbox);
    SinceIsWatermark(u, account, mailbox);
    WatermarkGrows(mailbox, log, k, n);
  }

  /** The last run never lowers the stored maximum UID. */
  lemma {:induction false} WatermarkNeverFalls(x: Library, s: Store, account: nat, mailbox: string,
                                               server: seq<EmailMessage>, rs: seq<Shared>)
    requires Fresh(s, account) && OnServer(server, account, mailbox) && AllMine(account, rs) && rs != []
    ensures Since(AfterMail(x, s, account, mailbox, server, rs[..|rs| - 1]), account, mailbox)
         <= Since(AfterMail(x, s, account, mailbox, server, rs), account, mailbox)
  {
    var log, entries := FromEmails(x, server), Entries(s.accounts[account].source, FromEmails(x, server));
    ParsedIsFresh(x, s, server, account, mailbox);
    LogStartsAgree(x, s, account, mailbox, server);
    var k, n := OneMoreExtends(x, s, account, StartInTables(account, mailbox, log), StartInArchive(mailbox, entries),
                               log, rs);
    LongerHoldsMore(AfterMail(x, s, account, mailbox, server, rs[..|rs| - 1]),
                    AfterMail(x, s, account, mailbox, server, rs), account, mailbox, entries, k, n);
  }

  /** With nobody else writing, not only the rows but the whole database, with people, roles,
      attachments, row ids and files, is that of one uninterrupted run, however often and after whichever
      committed step, inside a save or not, runs were stopped before; only the status table may differ. */
  lemma {:induction false} ResumptionIsOneRun(x: Library, s: Store, account: nat, mailbox: string,
                                              server: seq<EmailMessage>)
    requires Fresh(s, account) && OnServer(server, account, mailbox)
    ensures var log := FromEmails(x, server);
            && Visited(StartInTables(account, mailbox, log), s, log, Pass(|log|, |log|)) == log
            && AllOneFrom(log) && WholeAfterAny(x, s, StartInTables(account, mailbox, log), log)
  {
    ParsedIsFresh(x, s, server, account, mailbox);
    AloneIsOneRun(x, s, account, mailbox, FromEmails(x, server));
  }

  // ---------------------------------------------------------------- the watermark after one save

  lemma {:induction false} LatestAfterRow(s: Store, t: Store, id: nat, row: Message, account: nat, mailbox: string)
    requires id !in s.messages && t.messages == s.messages[id := row] && row.detail.EmailDetails?
    ensures LatestUid(t, account, mailbox)
         == var before := LatestUid(s, account, mailbox);
            if account != row.account || mailbox != row.detail.mailbox then before
            else if before.None? || before.value < row.detail.uid then Some(row.detail.uid) else before
  {
    LatestUidIsLatest(s, account, mailbox);
    LatestUidIsLatest(t, account, mailbox);
    var before := LatestUid(s, account, mailbox);
    assert StoredIn(t, account, mailbox, id) <==> account == row.account && mailbox == row.detail.mailbox;
    forall n | n != id ensures StoredIn(t, account, mailbox, n) <==> StoredIn(s, account, mailbox, n) {}
    if before.Some? {
      var n :| StoredIn(s, account, mailbox, n) && s.messages[n].detail.uid == before.value;
      assert StoredIn(t, account, mailbox, n) && t.messages[n].detail.uid == before.value;
    }
  }

  /** Once a mail is saved the watermark of its mailbox is the larger of its UID and what it was; that of
      any other mailbox stays. */
  lemma {:induction false} LatestAfterSave(x: Library, s: Store, t: Store, m: EmailMessage, id: nat, account: nat,
                                           mailbox: string)
    requires MailAdded(x, s, t, m, id)
    ensures LatestUid(t, account, mailbox)
         == var before := LatestUid(s, account, mailbox);
            if account != m.account || mailbox != m.mailbox then before
            else if before.None? || before.value < m.uid then Some(m.uid) else before
  {
    LatestAfterRow(s, t, id, t.messages[id], account, mailbox);
  }
}
