# AccountPilot: a model of the store, the sync loops and what they rest on

AccountPilot copies mail and iMessage history into one SQLite database and one content-addressed
directory of attachments. Two loops feed it, and both resume from a watermark that is computed from
what has been stored. Identities from all sources share one table of people, which owners listed in a
configuration file merge.

The project models this as one state machine (`Schema.Store`, the tables and the blob files) together
with the arithmetic, text encodings and protocols the loops depend on. Where the program promises
something that holds only under a condition, the theorem says that the promise holds if and only if the
condition does; the one result that goes one way only is named under "Left out".

| file | what it models |
|---|---|
| `Schema.dfy` | the tables, their keys, and what makes a database consistent |
| `Identity.dfy`, `Owners.dfy` | finding people, merging them, owner and account upserts, as functions on the tables; what an owner upsert does, read off the configured values |
| `Setup.dfy`, `SetupOwners.dfy`, `SetupInputs.dfy` | the `setup` command: idempotence, which person an account ends up with, and the inputs on which it is the wrong one |
| `Saving.dfy`, `History.dfy` | saving a message; every interleaving of committed steps, with crashes |
| `Stored.dfy`, `Lasting.dfy`, `CrossSource.dfy` | what a save leaves of a mail or an iMessage, field by field; that it lasts in any history; correspondents and configured owners as one person |
| `ResumableLog.dfy`, `Archive.dfy` | a log read in windows; one account's rows as a keep-first map, with others writing before any step; counters |
| `SyncLoop.dfy`, `Backfill.dfy`, `Interrupted.dfy` | what both sync loops share, over a function that says where a run begins: passes with others writing; one pass over whole databases; runs stopped after any committed step |
| `MailSync.dfy`, `MailServer.dfy`, `UidResponse.dfy`, `Reconnect.dfy` | the IMAP side: UID search and watermark, resumption over what the server holds, response parsing, backoff |
| `Float64.dfy`, `AppleTime.dfy`, `IsoText.dfy`, `IMessageSync.dfy`, `ChatDb.dfy` | the iMessage side: binary64 rounding, timestamp conversion, timestamp text, the watermark, resumption over what chat.db holds |
| `Watcher.dfy` | the debounce timer, the event and the daemon loop as interleaved steps |
| `Paging.dfy`, `ListingPage.dfy`, `Migrations.dfy` | the paged message listing, and what a page shows; the migration runner |
| `StorageClass.dfy`, `Commands.dfy` | the writers and drivers in their own imperative form, proved against the functions above |

A transaction is one step; a crash is a history that stops after some step; a rollback is a step that
leaves the tables alone. One caller of the storage is active at a time, and the steps of different
callers interleave. The tables are maps keyed by row id, `identifiers` by its UNIQUE key, and a new row
id is one more than the largest in use, so that the id of a deleted last row is handed out again. Text
functions of libraries (identifier normalisation, lower-casing, address splitting, the digest) are
arbitrary functions in `Schema.Library`; the digest is injective only on the contents a history has
seen, and only where a theorem says so.

Every lemma carries `{:induction false}`: each induction is written out in the lemma's body.

## Where the code falls short of what it says

- `setup` calls itself idempotent. Over every consistent database it is, exactly when each owner entry
  lists at least one identifier (`Setup.SetupIsIdempotent`); an entry without any adds a person each time.
- `setup` remembers a person id per owner identifier while later owner entries may merge that person
  away. If the freed row id is not used again setup fails on the foreign key
  (`SetupInputs.AccountIsRefused`); if it is, somebody else receives the account
  (`SetupInputs.AccountGoesToStranger`). What it remembers is right after every entry if and only if no
  entry merges away a person remembered under a key it does not list
  (`SetupOwners.DictionaryStaysRightIff`); a single key, and so an account, is right in the end if and only
  if the later entries lead from the remembered id back to it (`SetupOwners.KeyIsRightIff`,
  `SetupOwners.NewAccountIsRightIff`).
- `datetime_to_apple_ns` is documented as the inverse of `apple_ns_to_datetime`. One direction is the
  identity up to n microseconds after 2001 if and only if n < 2^51 + 3 (`AppleTime.RoundTripEndsExactly`);
  the other loses sub-microsecond digits (`AppleTime.NanosRoundTrip`).
- iMessage resumption asks for dates strictly after the watermark. A run that stops between two messages
  whose dates the conversion does not separate loses the second one for good. Nothing is lost if and only
  if `ChatDb.RowsResumable` holds of chat.db; messages a microsecond apart satisfy it. The people and
  files, too, are at every moment those of one uninterrupted pass if and only if every row that is dropped
  comes with nothing that the rows before did not bring (`ChatDb.ResumptionIsOneRun`); a message that
  chat.db lists once per chat and that is dropped on its second listing leaves out that chat's people
  (`ChatDb.ListedTwiceLosesPerson`).
- A save looks its people up before its transaction. If another caller merges one of them away in between,
  the transaction fails on the foreign key, and only then (`Archive.RefusedIffMergedAway`,
  `Archive.MergedAwayIsRefused`); the account's messages stay as they were and a later run takes it up again.
  If in between the freed row id has gone to somebody new, the save goes through and that stranger becomes
  the sender (`Archive.StrangerIsStored`). The sender is right if and only if its identifier still belongs to
  the person looked up when the transaction begins (`Archive.SenderIsRightIff`).
- The watcher drops a change that arrives while the timer thread has called back but not yet ended. If
  the wake-up it caused has already been consumed, no sync follows (`Watcher.WakeupCanBeLost`);
  this is the only way to lose one (`Watcher.NoLostWakeupIff`).
- `messages list` sorts by time and pages by id, so a mail saved after one with a later date may be on no
  page (`Paging.PagingLosesRow`). Pages put together are the listing, for every page size,
  if and only if ids follow time (`Paging.PagingIsExactIff`). Syncing one iMessage account keeps that so,
  whatever other accounts do meanwhile.
- `fetch_uids` is documented to return only UIDs above `since_uid`. It asks for `n:*`, which also gives the
  last message when none is above (`MailServer.RunAsks`); it is stored already, so its save is skipped.
- `fetch_uids` takes every all-digit token of every response line for a UID. It returns the reported UIDs
  if and only if no status line contains such a token; "SEARCH completed in 5 ms" adds the UID 5
  (`UidResponse.TimingIsTakenForUid`).
- Migrations run each script once, however they are staged, if and only if the numbers start above zero
  and rise with the file names. After a run cut off between a script and its version row, every later run
  fails if and only if SQLite does not accept that script twice (`Migrations.ScriptRunsAgainIff`), and
  `001_init.sql`, which begins with CREATE TABLE, it does not accept twice.
- `reconnect` ends against a dead server if and only if the first delay is positive or not below the
  maximum.
- `upsert_owner` without a match and with one identifier listed twice fails on the UNIQUE key; the rows
  it had inserted are dropped when the connection closes. A save for an unknown account rolls back twice,
  so its `ValueError` is replaced by the error of the second ROLLBACK; the tables are unchanged either way.
- Mail timestamps keep the sender's UTC offset, so text order is time order only for the UTC texts that
  the iMessage side writes. The mail watermark is a UID and does not depend on it.

## Model

| member | source | states |
|---|---|---|
| Prelude.NextId | src/accountpilot/core/db/migrations/001_init.sql:4 | a new row id is unused, above every id in use, and one more than the largest |
| Identity.MergeNext | src/accountpilot/core/identity.py:137-178 | merging one more person after others have moved is one move of them all |
| Identity.MergeEachIsOneMove | src/accountpilot/core/storage.py:320-323 | merging strays one by one is the simultaneous image of all tables under stray -> keep |
| Identity.MergeOrderDoesNotMatter | src/accountpilot/core/storage.py:320-323 | any order of the strays gives the same tables |
| Identity.MoveTwice | src/accountpilot/core/identity.py:152-173 | two moves compose to one when nobody is moved onto somebody who moves next |
| Identity.MergeKeepsValid | src/accountpilot/core/identity.py:137-178 | a successful merge keeps foreign keys, unique keys, the one sender per message and sources |
| Identity.MergePeopleIs | src/accountpilot/core/identity.py:137-178 | a merge is refused iff both are one person, or rows would refer to a missing one; otherwise who referred to the discarded person refers to the kept one, table by table |
| Identity.FindOrCreateExtends | src/accountpilot/core/identity.py:85-123 | one lookup: a known identifier gives its person and changes nothing; an unknown one gets a person who was not there, with the contact's name and no owner |
| Identity.FindOrCreateAllExtends | src/accountpilot/core/storage.py:79-85 | after a list of lookups the k-th contact resolves to the k-th id, and old identifiers keep their person |
| Identity.FindOrCreateAllSeparates | src/accountpilot/core/identity.py:85-123 | partition law: after a list of lookups two identifiers are one person iff they are equal or were one person before |
| Identity.FirstGetsPerson | src/accountpilot/core/identity.py:108-123 | each contact that is the first with an unknown identifier gets a new person, named by it and no owner |
| Identity.NewPersonIsAdded | src/accountpilot/core/identity.py:108-123 | and every new person is such a one |
| Identity.UpsertOwnerJoins | src/accountpilot/core/storage.py:293-364 | two identifiers are one person afterwards iff they were before, or both belong to the classes of the supplied ones; all supplied ones resolve to the returned id |
| Identity.UpsertOwnerIsLeast | src/accountpilot/core/storage.py:293-364 | any partition that keeps old classes together and joins the supplied identifiers is at least as coarse |
| Identity.UpsertOwnerCarries | src/accountpilot/core/storage.py:318-327 | people, account owners and names follow the merge; exactly the merged people disappear |
| Identity.UpsertOwnerCarriesRoles | src/accountpilot/core/identity.py:164-172 | message roles are the image of the old ones under the same merge |
| Identity.UpsertOwnerKeepsValid | src/accountpilot/core/storage.py:293-364 | an owner upsert keeps the database consistent |
| Owners.UpsertOwnerIs | src/accountpilot/core/storage.py:293-364 | read off the configured values: each value, normalised by its kind, resolves to the returned id and no other identifier is new; people, accounts and roles of the holders go there; it is the holder of the first known value, or somebody new |
| Owners.UpsertFailsIff | src/accountpilot/core/storage.py:329-362 | the upsert fails iff nobody holds any of the values and two of them normalise to one identifier |
| Identity.UpsertAccountKeepsValid | src/accountpilot/core/storage.py:366-393 | an account upsert returns a row of that (source, identifier) and keeps the database consistent |
| Identity.UpsertAccountIs | src/accountpilot/core/storage.py:366-393 | a row of that source and identifier is returned and nothing changes; otherwise the account is added as given, iff its owner exists |
| Setup.ApplyOwnerIs | src/accountpilot/core/cli/setup_cmd.py:143-155 | one owner entry, for any tables and dictionary: the upsert of its values as above, and the dictionary gives the owner under each of them in lower case |
| Setup.StopsAt | src/accountpilot/core/cli/setup_cmd.py:144-155 | the owners loop stops at the first entry that fails: nothing after it is applied |
| Setup.AccountsStopAt | src/accountpilot/core/cli/setup_cmd.py:159-172 | so does the accounts loop of a plugin |
| Setup.PluginsStopAt | src/accountpilot/core/cli/setup_cmd.py:156-172 | and with it the loop over the plugins |
| Setup.OwnersEndTogether | src/accountpilot/core/cli/setup_cmd.py:144-155 | when the owners loop ends, each entry's identifiers are one person, whatever later entries merged |
| Setup.OwnersEndNamed | src/accountpilot/core/cli/setup_cmd.py:144-155 | every person carries the name of the last entry that stands for them |
| Setup.OwnersAgain | src/accountpilot/core/cli/setup_cmd.py:144-155 | a second pass succeeds, merges nobody, and adds people iff some entry lists no identifier |
| Setup.PluginsDeclare | src/accountpilot/core/cli/setup_cmd.py:156-172 | accounts are only ever added, all declared ones exist afterwards, and declaring them again changes nothing |
| Setup.SetupIsIdempotent | src/accountpilot/core/cli/setup_cmd.py:134-173 | after one successful run a second always succeeds, and changes no table iff every owner entry lists an identifier |
| SetupOwners.DictionaryStaysRightIff | src/accountpilot/core/cli/setup_cmd.py:143-155 | the dictionary gives, after every entry and for every key, the person its last entry stands for iff no entry merges away somebody remembered under a key it does not list |
| SetupOwners.OwnersEndRight | src/accountpilot/core/cli/setup_cmd.py:143-155 | under that condition on the merges the dictionary is right when the loop ends |
| SetupOwners.KeyIsRightIff | src/accountpilot/core/cli/setup_cmd.py:143-155 | in the end one key is right iff the later entries, whatever they merge and whichever ids are used again, lead from its id back to it |
| SetupOwners.NewAccounts | src/accountpilot/core/cli/setup_cmd.py:156-172 | each account that setup adds is declared by an enabled plugin: source is the provider or else the plugin, and identifier, credentials and owner are those of the entry |
| SetupOwners.NewAccountsGoToOwners | src/accountpilot/core/cli/setup_cmd.py:156-172 | when every entry spares what is remembered, every added account, even before a failure, belongs to the person its owner entry stands for |
| SetupOwners.NewAccountIsRightIff | src/accountpilot/core/cli/setup_cmd.py:156-172 | for any configuration: an added account has its entry's source, identifier and credentials, and belongs to the right person iff the later entries lead from its owner id back to it |
| SetupOwners.NoForeignKeyErrorIff | src/accountpilot/core/cli/setup_cmd.py:156-172 | no accounts section makes setup fail on a missing person iff everybody the dictionary remembers exists |
| SetupOwners.SparingNeverForeignKey | src/accountpilot/core/cli/setup_cmd.py:143-172 | entries that spare what is remembered rule that failure out |
| SetupInputs.AccountIsRefused | src/accountpilot/core/cli/setup_cmd.py:143-172 | three owner entries with one merge, for which setup fails on the foreign key |
| SetupInputs.AccountGoesToStranger | src/accountpilot/core/cli/setup_cmd.py:143-172 | with a fourth entry the account is given to a person who lists another identifier |
| Saving.InsertKeepsValid | src/accountpilot/core/storage.py:88-176 | the transaction of a save keeps the database consistent, whether it inserts, skips or refuses |
| Saving.NewRowsOneSender | src/accountpilot/core/storage.py:151-156 | an inserted message has exactly one sender row, even when people repeat |
| Saving.FromEmailMentions | src/accountpilot/core/storage.py:475-483 | the people a mail mentions in each role are exactly the addresses of that header, in order, each by its normalised split address and display name |
| Saving.FromIMessageMentions | src/accountpilot/core/storage.py:187-203 | an iMessage mentions exactly its sender and its participants, in order, each by its handle normalised by kind |
| Saving.SaveStoresRoles | src/accountpilot/core/storage.py:79-85 | the role rows of a message just saved are those of the people its contacts resolve to, no more and no fewer |
| Stored.InsertTransacts | src/accountpilot/core/storage.py:88-176 | the transaction stores one row with every field of the message and its account's source, a role row for each party, and one attachment row a file with its name, hash, type and length, and nothing else |
| Stored.SaveEmailAdds | src/accountpilot/core/storage.py:70-176 | a stored mail has its id, time, text, direction, UID, mailbox and subject, its files in order, and in each role exactly the holders of the normalised addresses of that header |
| Stored.SaveIMessageAdds | src/accountpilot/core/storage.py:178-289 | the same for an iMessage with its chat, service, read flag and handles |
| Stored.SaveEmailDecides | src/accountpilot/core/storage.py:70-176 | a save skips iff the account has that external id, is refused iff it is new and the account unknown, never makes two identifiers one person and loses no file |
| Stored.NewPersonIsNamed | src/accountpilot/core/storage.py:475-483 | everybody a mail adds bears the display name of the first of its addresses that is theirs |
| Stored.NewAddressIsNamed | src/accountpilot/core/identity.py:108-123 | and each address that nobody had gets such a person |
| Stored.NewHandleIsNamed | src/accountpilot/core/identity.py:108-123 | everybody an iMessage adds holds one of its handles |
| Lasting.RolesAlwaysFollow | src/accountpilot/core/identity.py:152-173 | in any history the roles of a message are those of the present holders of its parties' identifiers, whatever is merged |
| Lasting.MailLasts | src/accountpilot/core/storage.py:70-472 | a mail saved with nobody writing during its save stands in every later history: row, files, and in each role the holders of its addresses |
| Lasting.ChatLasts | src/accountpilot/core/storage.py:178-472 | so does an iMessage with its handles |
| CrossSource.MailThenOwner | src/accountpilot/core/storage.py:293-364 | a mail saved so, whose sender's address an owner entry lists in any spelling that normalises alike, is from that owner once the entry is applied, whatever happens before, between and after |
| CrossSource.OwnerThenMail | src/accountpilot/core/storage.py:70-85 | and so is a mail saved after the entry |
| CrossSource.ChatThenOwner | src/accountpilot/core/storage.py:293-364 | the same for the sender's handle of an iMessage stored before the entry |
| CrossSource.OwnerThenChat | src/accountpilot/core/storage.py:178-203 | and after it |
| CrossSource.SendersAreOneIff | src/accountpilot/core/identity.py:85-123 | saving a mail and then an iMessage makes their senders one person iff the identifiers are equal or were one person before |
| History.StepKeepsValid | src/accountpilot/core/storage.py:70-472 | every committed step keeps the database consistent |
| History.IntegrityHolds | src/accountpilot/core/storage.py:70-472 | so does every interleaving of steps, cut off anywhere |
| History.StepStatus | src/accountpilot/core/storage.py:430-472 | only a report changes an account's status: a success adds its insertions and clears the error, a failure keeps the counter and puts its error |
| History.LastErrorIsLast | src/accountpilot/core/storage.py:430-472 | after any history the recorded error is that of the last reported attempt, and there is none iff that one succeeded |
| History.AttachmentsAgree | src/accountpilot/core/storage.py:158-176 | in every history that writes blobs before their rows, each attachment row names a blob of the recorded hash and length |
| History.SaveFilesFirst | src/accountpilot/core/storage.py:71-75 | a save writes its blobs before its rows, whatever its lookups give |
| History.FilesFirstInterleaved | src/accountpilot/core/storage.py:71-75 | if every caller does, so does any interleaving of any number of callers |
| History.AttachmentsAgreeForAll | src/accountpilot/core/storage.py:71-75 | so for any number of callers, interleaved step by step and cut off anywhere, rows and blobs agree |
| History.SaveIsItsSteps | src/accountpilot/core/storage.py:70-176 | a save is exactly its sequence of separately committed steps |
| History.SaveTwice | src/accountpilot/core/storage.py:90-98 | saving a stored message again, whatever has been written in between, changes no table and no blob and reports the same row |
| ResumableLog.ReadWindow | src/accountpilot/plugins/mail/sync.py:59-82 | reading any window that starts within the archived prefix extends the prefix, wherever it stops |
| ResumableLog.FirstWins | src/accountpilot/core/storage.py:90-98 | each key holds the value of its first log entry |
| ResumableLog.SkipKnown | src/accountpilot/core/storage.py:90-98 | passing over entries whose keys are archived loses nothing |
| ResumableLog.PassesKeepPrefix | src/accountpilot/plugins/mail/sync.py:59-84 | wherever passes begin, if they begin within what is archived or leave out only known keys, they archive a prefix, and a complete last one the whole log |
| Archive.SaveArchives | src/accountpilot/core/storage.py:70-176 | a save acts on its account's messages as insert-if-absent by external id, and adds a row iff it reports one |
| Archive.ForeignRun | src/accountpilot/core/storage.py:70-472 | other accounts' saves, merges, owner and account upserts leave an account's rows, source and counter alone |
| Archive.RefusedIffMergedAway | src/accountpilot/core/storage.py:79-156 | with others writing before each of its steps, a save is refused iff its message is new and a person it looked up is gone when its transaction begins |
| Archive.MergedAwayIsRefused | src/accountpilot/core/identity.py:137-178 | merging the sender onto anybody between lookup and transaction makes the save fail on the foreign key |
| Archive.StrangerIsStored | src/accountpilot/core/identity.py:108-123 | merging the sender away and then adding somebody new, who gets the freed row id, lets the save through with the stranger as sender |
| Archive.SenderIsRightIff | src/accountpilot/core/storage.py:79-156 | with others writing before any step, a stored message is from the holder of its sender's identifier iff that is still the person looked up when the transaction begins |
| Archive.SaveAmidIsHistory | src/accountpilot/core/storage.py:70-176 | such a save is a history in which its own steps and those of the others are interleaved in order |
| Archive.SaveEachArchives | src/accountpilot/plugins/mail/sync.py:61-84 | over a loop of saves, whatever others write before any of its steps, the messages up to the first refusal are each counted as inserted or skipped, and exactly the inserted ones are new rows |
| Archive.CountsAreConserved | src/accountpilot/core/storage.py:430-472 | over any attempts, with others writing before any step, an account's rows grow by the growth of `messages_ingested` plus the insertions of attempts that failed, were refused or were cut off |
| Archive.LastAttemptDecides | src/accountpilot/plugins/imessage/plugin.py:110-158 | of attempts one after the other the last that was not cut off decides the recorded error |
| SyncLoop.SharedReads | src/accountpilot/plugins/mail/sync.py:59-84 | on an account's messages, runs among other writers are passes over its archive, each as far as the first refusal let it come |
| MailSync.SearchIsSuffix | src/accountpilot/plugins/mail/imap/client.py:240 | on ascending UIDs the range `n:*` selects a suffix |
| MailServer.RunAsks | src/accountpilot/plugins/mail/imap/client.py:226-245 | a run begins with the first message when nothing is stored, else with the first UID above the largest stored one, or with the last message when there is none |
| MailServer.AlwaysPrefix | src/accountpilot/plugins/mail/sync.py:59-84 | for a server's ascending messages: after any runs, cut off or refused anywhere while mail arrives and others write before any step, the account's rows are those of the first message of each Message-ID up to some point, field by field |
| MailServer.ResumptionEqualsBackfill | src/accountpilot/plugins/mail/sync.py:59-84 | and once a run reports success, those of the whole mailbox, as after one pass |
| MailServer.ResumptionIsOneRun | src/accountpilot/plugins/mail/sync.py:59-84 | with nobody else writing, after runs stopped after any committed step, inside a save too, and whatever they recorded, a complete run leaves every table but the status, and the files, as one uninterrupted run does |
| Backfill.SettledIffCovered | src/accountpilot/core/storage.py:70-176 | after the first messages of a pass nothing of a further one is missing iff its files, people and id were there before or come with those |
| Backfill.PartResumes | src/accountpilot/core/storage.py:70-85 | a save taken up again after a cut before its transaction ends exactly as it would have |
| Interrupted.CutIsWithin | src/accountpilot/plugins/mail/sync.py:61-84 | cut off after any number of its committed steps, a loop of saves has done some saves whole and part of the next |
| Interrupted.WholeWhenSettled | src/accountpilot/plugins/mail/sync.py:59-84 | if runs omit only messages of which nothing is missing, stopping them after any committed step changes nothing in the end |
| MailServer.LowestUidWins | src/accountpilot/plugins/mail/sync.py:64-82 | of several messages with one Message-ID the one with the lowest UID is stored |
| MailServer.NothingBelowWatermarkIsMissing | src/accountpilot/core/storage.py:416-428 | in every reachable state, when a message is stored so is every one with a lower UID |
| MailServer.WatermarkNeverFalls | src/accountpilot/core/storage.py:416-428 | no run lowers the watermark |
| MailServer.LatestAfterSave | src/accountpilot/core/storage.py:134-149 | once a mail is saved the watermark of its mailbox is the larger of its UID and what it was, and no other changes |
| UidResponse.FetchUids | src/accountpilot/plugins/mail/imap/client.py:249-264 | the loops return the ascending arrangement of all numbers in the response |
| UidResponse.RenderedNumbers | src/accountpilot/plugins/mail/imap/client.py:261-263 | splitting a rendered UID list gives its numbers back in order |
| UidResponse.SortedIsUnique | src/accountpilot/plugins/mail/imap/client.py:264 | a multiset has one ascending arrangement, so the result is determined |
| UidResponse.FetchReturnsReportedIff | src/accountpilot/plugins/mail/imap/client.py:249-264 | the result is the reported UIDs, however split over lines, iff no status line has an all-digit token |
| UidResponse.TimingIsTakenForUid | src/accountpilot/plugins/mail/imap/client.py:249-264 | the status line "SEARCH completed in 5 ms", after any response, adds the UID 5 |
| Reconnect.GivesUpIff | src/accountpilot/plugins/mail/imap/client.py:181-196 | the delay reaches the maximum iff it starts positive or not below it |
| Reconnect.TotalIsBounded | src/accountpilot/plugins/mail/imap/client.py:181-196 | doubling sleeps below the maximum add up to less than twice the maximum |
| Reconnect.Client.Reconnect | src/accountpilot/plugins/mail/imap/client.py:173-196 | sleeps double from the base and stay below the maximum, all earlier attempts failed retryably, the last one decides the outcome and the folder's connection |
| Reconnect.Client.EnsureConnected | src/accountpilot/plugins/mail/imap/client.py:198-203 | a live connection is kept as it is; otherwise the folder is reconnected |
| Float64.RoundingError | src/accountpilot/plugins/imessage/helper_client.py:67 | rounding to binary64 errs by at most half a unit in the last place |
| Float64.RoundMonotone | src/accountpilot/plugins/imessage/helper_client.py:67 | rounding keeps order |
| AppleTime.MicrosRoundTrip | src/accountpilot/plugins/imessage/helper_client.py:65-73 | datetime to nanoseconds and back is the identity for every instant up to 2^51 - 1 microseconds |
| AppleTime.RoundTripEndsExactly | src/accountpilot/plugins/imessage/helper_client.py:65-73 | it is the identity up to n microseconds iff n < 2^51 + 3 |
| AppleTime.RoundTripFailsLater | src/accountpilot/plugins/imessage/helper_client.py:65-73 | an instant just beyond comes back one microsecond late |
| AppleTime.NanosRoundTrip | src/accountpilot/plugins/imessage/helper_client.py:65-73 | nanoseconds survive the other way round iff the nearest whole microsecond converts to them |
| AppleTime.WatermarkError | src/accountpilot/plugins/imessage/plugin.py:45-47 | nanoseconds to datetime and back is off by less than 1000 |
| AppleTime.ToMicrosMonotone | src/accountpilot/plugins/imessage/helper_client.py:65-67 | later dates never convert to earlier datetimes |
| IsoText.ParseInvertsPrint | src/accountpilot/core/storage.py:414 | parsing inverts printing, with and without a fraction |
| IsoText.PrintIs | src/accountpilot/core/storage.py:123 | the text is year-month-dayThour:minute:second, a fraction of six digits when not zero, and +00:00 |
| IsoText.TextOrderIsTimeOrder | src/accountpilot/core/storage.py:406-414 | printed UTC datetimes compare as text exactly as the instants compare |
| IsoText.FromMicrosIsInverse | src/accountpilot/plugins/imessage/helper_client.py:62-67 | adding microseconds to the 2001 epoch gives a valid date, and counting back gives the microseconds |
| IsoText.StampOrder | src/accountpilot/core/storage.py:237 | stored stamps are ordered and distinct exactly as their instants |
| IsoText.MaxTextIsLatest | src/accountpilot/core/storage.py:406-414 | `MAX(sent_at)` over stamped instants is the stamp of the latest and parses to it |
| IMessageSync.ResumesAfterLast | src/accountpilot/plugins/imessage/plugin.py:126-128 | with a prefix of chat.db stored, a run resumes from the watermark of its last row |
| IMessageSync.ReadIMessages | helpers/fda-helper/Sources/AccountpilotFDAHelper/main.swift:238-318 | the helper emits exactly the rows after those with dates up to the watermark, in order |
| IMessageSync.NothingLostIffResumable | src/accountpilot/plugins/imessage/plugin.py:126-138 | every interrupted history that ends complete archives every row iff each row passes the watermarks of all earlier ones or repeats a message read by then |
| IMessageSync.ApartIsResumable | src/accountpilot/plugins/imessage/plugin.py:126-138 | distinct messages 1000 ns apart satisfy that condition |
| IMessageSync.SameInstantIsLost | helpers/fda-helper/Sources/AccountpilotFDAHelper/main.swift:261-264 | two messages of one instant, anywhere in chat.db, do not: stopping between them loses the second |
| ChatDb.RunAsks | src/accountpilot/plugins/imessage/plugin.py:126-128 | a run begins with the first row when nothing is stored, else with the first one dated after the latest stored time |
| ChatDb.ResumptionIsSafeIff | src/accountpilot/plugins/imessage/plugin.py:110-158 | for the rows of chat.db: whatever is interrupted and whatever others write before any step, no message is lost for good iff each row passes the watermark of every earlier one or repeats a guid read by then; on the tables, through float conversion, text and SQL MAX |
| ChatDb.ResumptionEqualsBackfill | src/accountpilot/plugins/imessage/plugin.py:126-138 | under the condition a complete run leaves exactly the rows of the first listing of each guid, field by field and stamped with its date |
| ChatDb.ResumptionIsOneRun | src/accountpilot/plugins/imessage/plugin.py:126-138 | with nobody else writing, stopped runs leave at every moment, but for the status, the whole database of one uninterrupted pass iff every row that does not pass an earlier row's watermark adds nothing: its guid, people and files are in the database before or come with the rows up to that one |
| ChatDb.ListedTwiceLosesPerson | src/accountpilot/core/storage.py:187-215 | a message listed for two chats, stopped between the listings: the condition on messages holds, yet the second chat's person is never stored |
| Watcher.DebouncedHandler.OnModified | src/accountpilot/plugins/imessage/watcher.py:64-77 | an event on the database, its -wal or its -shm is a change step of the protocol, any other event is no step |
| Watcher.DebouncedHandler.Schedule | src/accountpilot/plugins/imessage/watcher.py:56-62 | an event while the timer thread is alive is collapsed into it |
| Watcher.NoLostWakeupIff | src/accountpilot/plugins/imessage/plugin.py:166-187 | throughout a run unseen changes have a wake-up on its way iff no change is collapsed into a finished fire |
| Watcher.AtomicCallbackLosesNothing | src/accountpilot/plugins/imessage/watcher.py:50-62 | if the thread ends with its callback no wake-up is ever lost |
| Watcher.WakeupCanBeLost | src/accountpilot/plugins/imessage/watcher.py:56-62 | a possible run after which a change is unseen and nothing will wake the loop |
| Watcher.FiresAreApart | src/accountpilot/plugins/imessage/watcher.py:35-62 | the callback runs at most once per debounce period |
| Watcher.ChangeFiresInTime | src/accountpilot/plugins/imessage/watcher.py:50-62 | a change not collapsed into an ending thread is followed by a fire within the debounce period |
| ListingPage.MessagesList | src/accountpilot/core/cli/messages_cmds.py:88-156 | the command's page is that of the filtered newest-first listing, and over UTC rows shows what the next line says |
| ListingPage.PageOfUtcRows | src/accountpilot/core/cli/messages_cmds.py:98-156 | for any account, contact, date, cursor and limit: the page has up to 1..500 messages of the account, with the contact in some role, not before the date's midnight and below the cursor, by instant and then id; what passes and is not shown comes after all shown, and only a full page, which gives its last id, leaves anything out |
| Paging.ListingIsUnique | src/accountpilot/core/cli/messages_cmds.py:122 | the order has no ties, so the listing is determined |
| Paging.CursorShrinks | src/accountpilot/core/cli/messages_cmds.py:155 | following the cursor strictly shrinks what is left, for any table |
| Paging.PagingIsExactIff | src/accountpilot/core/cli/messages_cmds.py:100-156 | pages put together are the listing for every page size iff a larger id never has an earlier time |
| Paging.PagingLosesRow | src/accountpilot/core/cli/messages_cmds.py:100-156 | after two mail saves, the second with the earlier date, pages of one row show only the first |
| Paging.SavesKeepOrder | src/accountpilot/core/storage.py:178-289 | saving messages in time order, none earlier than what is stored, keeps ids in time order, whatever others write before any step |
| Paging.PagingIsExactAfterSync | src/accountpilot/plugins/imessage/plugin.py:126-138 | after any interrupted iMessage runs of one account, with others writing before any step, paging that account is exact for every page size |
| Migrations.ApplyMigrations | src/accountpilot/core/db/migrations/__init__.py:50-76 | the loop, with its file-name pattern, skips and failures, is the specified run over the listed files |
| Migrations.VersionIff | src/accountpilot/core/db/migrations/__init__.py:39 | a file is a migration iff its name is digits, an underscore, something and .sql, and the digits are its version |
| Migrations.RunRecords | src/accountpilot/core/db/migrations/__init__.py:59-74 | a run that does not fail records and runs exactly the files above the starting version, in order |
| Migrations.RunReports | src/accountpilot/core/db/migrations/__init__.py:68-76 | it reports their versions in order, leaves old rows and puts the file name in each new one |
| Migrations.RunOfEntries | src/accountpilot/core/db/migrations/__init__.py:68-74 | each row added is the name of a file of that version in the directory |
| Migrations.ScriptOfEntry | src/accountpilot/core/db/migrations/__init__.py:59-67 | each script run is the content of a migration there above the starting version |
| Migrations.RerunAppliesNothing | src/accountpilot/core/db/migrations/__init__.py:50-76 | applying a directory again does nothing, whatever is in it |
| Migrations.StagedIsOneRunIff | src/accountpilot/core/db/migrations/__init__.py:42-76 | every staging or interruption between files ends like one run, each script once and in order, iff numbers start above zero and rise with names |
| Migrations.ScriptRunsAgainIff | src/accountpilot/core/db/migrations/__init__.py:67-73 | cut off between script and version row, the next run fails, and leaves things as they are, iff that script is not repeatable; otherwise it executes it again, first of all, and goes on |
| StorageClass.CasStore.Write | src/accountpilot/core/cas.py:38-58 | put if absent under the content's own hash |
| StorageClass.Storage.FindOrCreatePerson | src/accountpilot/core/identity.py:85-123 | a known identifier returns its person and changes nothing; an unknown one adds a person with a new id and the contact's name, no owner, and changes nothing else |
| StorageClass.Storage.MergePeople | src/accountpilot/core/identity.py:137-178 | on commit every table is its image under discard -> keep; it fails iff both are one person or rows would dangle, and then nothing changes |
| StorageClass.Storage.UpsertOwner | src/accountpilot/core/storage.py:293-364 | every configured value, normalised, resolves to the returned id and no other identifier is new, with all tables as `Owners.OwnerIs` spells out; it fails exactly as stated there and then changes nothing |
| StorageClass.Storage.MergeStrays | src/accountpilot/core/storage.py:320-323 | the loop of merges leaves the simultaneous image |
| StorageClass.Storage.UpsertAccount | src/accountpilot/core/storage.py:366-393 | an existing row is returned and nothing changes; a new one is added as given and needs an existing owner |
| StorageClass.Storage.SaveEmail | src/accountpilot/core/storage.py:70-176 | skips, is refused or stores as decided by account and external id, and what it stores is the mail field by field: row, files, and people by normalised address |
| StorageClass.Storage.SaveIMessage | src/accountpilot/core/storage.py:178-289 | the same for an iMessage and its handles |
| StorageClass.Storage.InsertOnce | src/accountpilot/core/storage.py:88-176 | skip, refusal or insertion, exactly when; an insertion adds one row with the message's fields, its parties' roles and its files' rows, and a refusal changes nothing |
| StorageClass.Storage.LatestImapUid | src/accountpilot/core/storage.py:416-428 | None exactly when no mail of the account and mailbox is stored; otherwise a stored UID that no stored one exceeds |
| StorageClass.Storage.LatestSentAt | src/accountpilot/core/storage.py:406-414 | None exactly when the account has no message; otherwise a stored timestamp that none follows as text |
| StorageClass.Storage.RecordSuccess | src/accountpilot/core/storage.py:445-459 | adds the insertions to the counter and clears the error |
| StorageClass.Storage.RecordFailure | src/accountpilot/core/storage.py:460-471 | keeps the counter and records the error |
| Commands.ApplyOwners | src/accountpilot/core/cli/setup_cmd.py:143-155 | the owners loop, its dictionary and its first failure |
| Commands.ApplyAccount | src/accountpilot/core/cli/setup_cmd.py:160-172 | one account entry: an unknown owner or a refused insert is reported and changes nothing |
| Commands.ApplyAccounts | src/accountpilot/core/cli/setup_cmd.py:159-172 | the accounts loop of one plugin and its first failure |
| Commands.ApplyConfig | src/accountpilot/core/cli/setup_cmd.py:134-173 | the whole command leaves the tables of the specified application |
| Commands.SaveAll | src/accountpilot/plugins/mail/sync.py:61-84 | the loop body of both syncs, its counters, and stopping at a refused save |
| Commands.SyncMail | src/accountpilot/plugins/mail/plugin.py:134-176 | a mail sync saves in order the server's messages from where it asks, up to where it stops, counts them and records how it ended |
| Commands.SyncIMessages | src/accountpilot/plugins/imessage/plugin.py:110-158 | an iMessage sync resumes from the stored timestamp and leaves the tables of the specified attempt, status included |

## Left out

- SetupOwners.NewAccountsGoToOwners: one direction, for all accounts at once; the exact statement is per account, in `SetupOwners.NewAccountIsRightIff`.
- MailServer.ResumptionEqualsBackfill: the mailbox is append-only with one UIDVALIDITY (section 2.3.1.1 of RFC 3501) and ascending UIDs; expunged messages and a changed UIDVALIDITY are not part of it.
- MailServer.NothingBelowWatermarkIsMissing: a message whose fetching or parsing always fails stops every run before it, and so no run completes; it is not lost, but neither is anything after it fetched.
- MailServer.ResumptionIsOneRun: nobody else writes; rows of others would take row ids in between, so whole databases could not be equal.
- ChatDb.ResumptionIsOneRun: nobody else writes, for the same reason.
- IMessageSync.NothingLostIffResumable: dates lie between 0 and 2251799813685247000 ns after 2001, where the conversion is exact enough; negative dates are left out.
- Lasting.MailLasts: for a save whose own steps come one after the other; with others in between see `Archive.SenderIsRightIff`.
- Archive.SenderIsRightIff: says it of the sender; in the other roles two people can trade ids and leave the same rows.
- Watcher.NoLostWakeupIff: a change between the daemon's first sync and the start of the watcher is outside the protocol, and so are events the operating system does not deliver and the poll for a replaced file.
- StorageClass.Storage.UpsertOwner: one step, except that every merge inside it is also a step of its own in `History`; that the UPDATE and INSERTs after the merges share one commit is taken from the connection's transaction mode.
- StorageClass.CasStore.Write: the temporary file and the rename are one step, so a crash leaves no partial blob.
- ListingPage.MessagesList: rows are identified by message id; the joined display columns (sender name, subject, snippet) are not part of this model. No writer sets `is_primary`, and a message has one sender, so the joins repeat no row.
- Columns that no property reads: notes, created and updated times, received_at, thread id, headers, labels, HTML bodies, `enabled` and `backfilled_at`.
- Library behaviour: identifier normalisation, address and MIME parsing, typedstream decoding and SHA-256 are arbitrary functions; SQLite's ORDER BY, MAX and UNIQUE are taken as documented.
- Migrations.ScriptRunsAgainIff: whether SQLite accepts a script a second time is given with the file, and a cut within the statements of one script is not part of this model.
- Several coroutines on one connection, SQLite locking and WAL recovery: committed steps interleave, statements within a transaction do not.
- `accounts add`: it writes an identifier without normalising it and without `Storage`.
- Cascading deletes and the full-text index: no modelled command deletes messages or queries the index.
- OAuth, secrets, IDLE, the helper's process spawning and JSON lines, service installation, the Swift user interface: plumbing without state of this kind.
- The daemons' endless loops: the iMessage daemon is the step system in `Watcher`; the mail daemon repeats `SyncMail`.
- JSON envelopes, exit codes and log messages; of a recorded exception only its type is kept when a save is refused.
