/** The loops that drive the storage: `accountpilot setup`, and one sync of a mail or iMessage account. */
module Commands {
  import opened Prelude
  import opened Schema
  import opened Saving
  import opened ResumableLog
  import opened Archive
  import History
  import SyncLoop
  import opened StorageClass
  import Setup
  import Mail = MailSync
  import IMsg = IMessageSync
  import MailServer
  import ChatDb

  // ---------------------------------------------------------------- setup

  method ApplyOwners(storage: Storage, owners: seq<Setup.OwnerEntry>)
      returns (ownerIds: map<string, nat>, error: Option<Failure>)
    requires Valid(storage.View())
    modifies storage
    ensures Setup.ApplyOwners(storage.cas.x, old(storage.View()), owners)
         == Setup.Progress(storage.View(), ownerIds, error)
  {
    ghost var was := storage.View();
    var x := storage.cas.x;
    ownerIds, error := map[], None;
    var k := 0;
    while k < |owners|
      invariant 0 <= k <= |owners|
      invariant error == None
      invariant Setup.ApplyOwners(x, was, owners[..k]) == Setup.Progress(storage.View(), ownerIds, None)
    {
      assert owners[..k + 1][..k] == owners[..k];
      Setup.OwnersRunIsValid(x, was, owners[..k]);
      var r := storage.UpsertOwner(owners[k].name, owners[k].surname, owners[k].identifiers);
      if r.Err? {
        Setup.StopsAt(x, was, owners, k + 1);
        return ownerIds, Some(r.error);
      }
      ownerIds := ownerIds + Setup.Learned(Setup.OwnerKeys(x, owners[k]), r.value);
      k := k + 1;
    }
    assert owners[..|owners|] == owners;
  }

  method ApplyAccount(storage: Storage, ownerIds: map<string, nat>, plugin: string, a: Setup.AccountEntry)
      returns (error: Option<Failure>)
    modifies storage
    ensures Setup.ApplyAccount(storage.cas.x, Setup.Progress(old(storage.View()), ownerIds, None), plugin, a)
         == Setup.Progress(storage.View(), ownerIds, error)
  {
    var key := storage.cas.x.lower(a.owner);
    if key !in ownerIds {
      return Some(UnknownOwner);
    }
    var r := storage.UpsertAccount(Setup.AccountRow(plugin, a, ownerIds[key]));
    error := if r.Err? then Some(r.error) else None;
  }

  method ApplyAccounts(storage: Storage, ownerIds: map<string, nat>, plugin: string, accounts: seq<Setup.AccountEntry>)
      returns (error: Option<Failure>)
    modifies storage
    ensures Setup.ApplyAccounts(storage.cas.x, Setup.Progress(old(storage.View()), ownerIds, None), plugin, accounts)
         == Setup.Progress(storage.View(), ownerIds, error)
  {
    ghost var was := Setup.Progress(storage.View(), ownerIds, None);
    ghost var x := storage.cas.x;
    for k := 0 to |accounts|
      invariant Setup.ApplyAccounts(x, was, plugin, accounts[..k]) == Setup.Progress(storage.View(), ownerIds, None)
    {
      Setup.AccountsStep(x, was, plugin, accounts, k);
      error := ApplyAccount(storage, ownerIds, plugin, accounts[k]);
      if error.Some? {
        Setup.AccountsStopAt(x, was, plugin, accounts, k + 1);
        return;
      }
    }
    assert accounts[..|accounts|] == accounts;
    return None;
  }

  /** `setup_cmd`. */
  method ApplyConfig(storage: Storage, cfg: Setup.Config) returns (error: Option<Failure>)
    requires Valid(storage.View())
    modifies storage
    ensures var p := Setup.Apply(storage.cas.x, old(storage.View()), cfg);
            storage.View() == p.store && error == p.error
  {
    ghost var was := storage.View();
    var x := storage.cas.x;
    var ownerIds;
    ownerIds, error := ApplyOwners(storage, cfg.owners);
    if error.Some? {
      return;
    }
    ghost var p := Setup.ApplyOwners(x, was, cfg.owners);
    var k := 0;
    while k < |cfg.plugins|
      invariant 0 <= k <= |cfg.plugins|
      invariant Setup.ApplyPlugins(x, p, cfg.plugins[..k]) == Setup.Progress(storage.View(), ownerIds, None)
    {
      assert cfg.plugins[..k + 1][..k] == cfg.plugins[..k];
      if cfg.plugins[k].enabled {
        var e := ApplyAccounts(storage, ownerIds, cfg.plugins[k].name, cfg.plugins[k].accounts);
        if e.Some? {
          Setup.PluginsStopAt(x, p, cfg.plugins, k + 1);
          return e;
        }
      }
      k := k + 1;
    }
    assert cfg.plugins[..|cfg.plugins|] == cfg.plugins;
    return None;
  }

  // ---------------------------------------------------------------- syncing

  /** The body of both sync loops: save each message in turn and count; a refused save raises. */
  method SaveAll(storage: Storage, ms: seq<Incoming>) returns (inserted: nat, skipped: nat, error: Option<Failure>)
    modifies storage, storage.cas
    ensures SaveEach(storage.cas.x, old(storage.View()), ms) == Tally(storage.View(), inserted, skipped, error)
  {
    ghost var was, x := storage.View(), storage.cas.x;
    inserted, skipped, error := 0, 0, None;
    ghost var t := Tally(was, 0, 0, None);
    var k := 0;
    while k < |ms|
      invariant 0 <= k <= |ms| && error.None?
      invariant t == SaveEach(x, was, ms[..k])
      invariant t.store == storage.View() && t.inserted == inserted && t.skipped == skipped && t.error.None?
    {
      var o := storage.Save(ms[k]);
      NextTally(x, was, ms, k, t, storage.View(), o);
      t := Counted(t, storage.View(), o);
      k := k + 1;
      if o.Refused? {
        SaveEachStopsAt(x, was, ms, k);
        return inserted, skipped, Some(o.error);
      }
      if o.Inserted? {
        inserted := inserted + 1;
      } else {
        skipped := skipped + 1;
      }
    }
    assert ms[..|ms|] == ms;
  }

  /** What `sync_once` records at the end: a success with its count, or the exception. When the process
      is killed nothing is recorded. */
  method Record(storage: Storage, account: nat, inserted: nat, ending: Ending)
    modifies storage
    ensures storage.View() == match ending
                              case Completed => History.RecordSuccess(old(storage.View()), account, inserted)
                              case Raised(e) => History.RecordFailure(old(storage.View()), account, e)
                              case CutOff => old(storage.View())
  {
    match ending
    case Completed => storage.RecordSuccess(account, inserted);
    case Raised(e) => storage.RecordFailure(account, e);
    case CutOff =>
  }

  /** An attempt that gets through `ms` and ends so leaves `now` and has counted so many. */
  ghost predicate Synced(x: Library, was: Store, account: nat, ms: seq<Incoming>, ending: Ending, now: Store,
                         inserted: nat, skipped: nat) {
    && now == AfterAttempt(x, was, account, Attempt(ms, ending))
    && inserted == SaveEach(x, was, ms).inserted && skipped == SaveEach(x, was, ms).skipped
  }

  /** What both `sync_once` do with the messages they get through. */
  method SaveAndRecord(storage: Storage, account: nat, ms: seq<Incoming>, ending: Ending)
      returns (inserted: nat, skipped: nat)
    modifies storage, storage.cas
    ensures Synced(storage.cas.x, old(storage.View()), account, ms, ending, storage.View(), inserted, skipped)
  {
    var error;
    inserted, skipped, error := SaveAll(storage, ms);
    Record(storage, account, inserted, EndingOf(error, ending));
  }

  lemma {:induction false} MailWindow(was: Store, account: nat, mailbox: string, parsed: seq<Incoming>, stop: nat,
                                      since: nat, from: nat, ms: seq<Incoming>)
    requires since == Mail.Since(was, account, mailbox) && from == Mail.Start(Mail.UidsOf(Entries("", parsed)), since)
    requires ms == parsed[from..from + AtMost(stop, |parsed| - from)]
    ensures ms == SyncLoop.Visited(Mail.StartInTables(account, mailbox, parsed), was, parsed, Pass(|parsed|, stop))
  {
    Mail.SyncVisits(was, account, mailbox, parsed, stop, since);
  }

  /** Of the server's messages those asked for, up to where the run stops. */
  ghost predicate MailSynced(x: Library, was: Store, account: nat, mailbox: string, server: seq<EmailMessage>,
                             stop: nat, ending: Ending, now: Store, inserted: nat, skipped: nat) {
    exists from: nat :: MailServer.AsksFrom(server, Mail.LatestUid(was, account, mailbox), from)
                        && Synced(x, was, account, FromEmails(x, server[from..from + AtMost(stop, |server| - from)]),
                                  ending, now, inserted, skipped)
  }

  lemma {:induction false} AskedIsVisited(x: Library, was: Store, account: nat, mailbox: string,
                                          server: seq<EmailMessage>, stop: nat) returns (from: nat)
    requires MailServer.OnServer(server, account, mailbox)
    ensures MailServer.AsksFrom(server, Mail.LatestUid(was, account, mailbox), from)
    ensures SyncLoop.Visited(Mail.StartInTables(account, mailbox, FromEmails(x, server)), was, FromEmails(x, server),
                             Pass(|server|, stop))
         == FromEmails(x, server[from..from + AtMost(stop, |server| - from)])
  {
    var log := FromEmails(x, server);
    from := Mail.StartInTables(account, mailbox, log)(was, |server|);
    MailServer.RunAsks(x, was, account, mailbox, server, |server|);
    assert server[..|server|] == server;
    var to := from + AtMost(stop, |server| - from);
    assert SyncLoop.Visited(Mail.StartInTables(account, mailbox, log), was, log, Pass(|server|, stop)) == log[from..to];
    assert log[from..to] == FromEmails(x, server[from..to]);
  }

  lemma {:induction false} SyncedAsAsked(x: Library, was: Store, account: nat, mailbox: string,
                                         server: seq<EmailMessage>, stop: nat, ms: seq<Incoming>, ending: Ending,
                                         now: Store, inserted: nat, skipped: nat)
    requires MailServer.OnServer(server, account, mailbox)
    requires ms == SyncLoop.Visited(Mail.StartInTables(account, mailbox, FromEmails(x, server)), was,
                                    FromEmails(x, server), Pass(|server|, stop))
    requires Synced(x, was, account, ms, ending, now, inserted, skipped)
    ensures MailSynced(x, was, account, mailbox, server, stop, ending, now, inserted, skipped)
  {
    var from := AskedIsVisited(x, was, account, mailbox, server, stop);
  }

  /** `MailPlugin.sync_once` with `sync_account_mailbox` inside, against the mailbox `server`: fetching
      or parsing stops it after `stop` messages, if ever, and it ends as `ending` says. */
  method SyncMail(storage: Storage, account: nat, mailbox: string, server: seq<EmailMessage>, stop: nat, ending: Ending)
      returns (inserted: nat, skipped: nat)
    modifies storage, storage.cas
    ensures var x, was := storage.cas.x, old(storage.View());
            var parsed := FromEmails(x, server);
            var start := Mail.StartInTables(account, mailbox, parsed);
            var ms := SyncLoop.Visited(start, was, parsed, Pass(|server|, stop));
            Synced(x, was, account, ms, ending, storage.View(), inserted, skipped)
    ensures MailServer.OnServer(server, account, mailbox) ==>
              MailSynced(storage.cas.x, old(storage.View()), account, mailbox, server, stop, ending, storage.View(),
                         inserted, skipped)
  {
    ghost var was := storage.View();
    var parsed := FromEmails(storage.cas.x, server);
    var latest := storage.LatestImapUid(account, mailbox);
    var since := if latest.None? then 0 else latest.value;
    var from := Mail.Start(Mail.UidsOf(Entries("", parsed)), since);
    var ms := parsed[from..from + AtMost(stop, |parsed| - from)];
    MailWindow(was, account, mailbox, parsed, stop, since, from, ms);
    inserted, skipped := SaveAndRecord(storage, account, ms, ending);
    if MailServer.OnServer(server, account, mailbox) {
      SyncedAsAsked(storage.cas.x, was, account, mailbox, server, stop, ms, ending, storage.View(), inserted, skipped);
    }
  }

  /** `IMessagePlugin.sync_once`: resume from the latest stored timestamp, save what the helper yields.
      A stored timestamp that does not parse raises before anything is read or recorded. */
  method SyncIMessages(storage: Storage, account: nat, rows: seq<ChatDb.DbRow>, stop: nat, ending: Ending)
      returns (inserted: nat, skipped: nat)
    modifies storage, storage.cas
    ensures var x, was := storage.cas.x, old(storage.View());
            var records := ChatDb.Records(x, rows);
            var start := IMsg.StartInTables(account, records);
            var ms := SyncLoop.Visited(start, was, IMsg.Stamped(records), Pass(|rows|, stop));
            var latest := IMsg.LatestSentAt(was, account);
            if latest.Some? && forall d :: !ChatDb.Reads(latest.value, d)
            then storage.View() == was && inserted == skipped == 0
            else Synced(x, was, account, ms, ending, storage.View(), inserted, skipped)
  {
    ghost var was := storage.View();
    var text := storage.LatestSentAt(account);
    var since := IMsg.ResumeFrom(text);
    ChatDb.UnreadableIff(text);
    if since.Unreadable? {
      return 0, 0;
    }
    var records := ChatDb.Records(storage.cas.x, rows);
    var from := IMsg.Dropped(IMsg.Dates(records), since);
    var all := IMsg.Stamped(records);
    var ms := all[from..from + AtMost(stop, |rows| - from)];
    IMsg.SyncVisits(was, account, records, all, stop, since, from, ms);
    inserted, skipped := SaveAndRecord(storage, account, ms, ending);
  }
}
