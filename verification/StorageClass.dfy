/** The writers of the database and of the file store as the classes they are. Each method follows its
    original statement by statement and is proved to have the effect of the corresponding function on
    the tables, on which all properties are stated. */
module StorageClass {
  import opened Prelude
  import opened Schema
  import opened Identity
  import opened Owners
  import opened Saving
  import opened History
  import opened Stored
  import opened IsoText
  import Mail = MailSync
  import IMessage = IMessageSync

  /** `CASStore`: files named by the hash of their content. */
  class CasStore {
    const x: Library
    var files: map<string, Bytes>

    constructor (x: Library)
      ensures this.x == x && files == map[]
    {
      this.x := x;
      files := map[];
    }

    /** An existing file is left alone; otherwise a temporary file is written and renamed into place,
        so no partial file is ever seen under its final name. */
    method Write(content: Bytes) returns (h: string)
      modifies this
      ensures h == x.hash(content)
      ensures files == if h in old(files) then old(files) else old(files)[h := content]
    {
      h := x.hash(content);
      if h in files {
        return;
      }
      var temporary := content;
      files := files[h := temporary];
    }
  }

  class Storage {
    const cas: CasStore
    var people: map<nat, Person>
    var identifiers: map<Ident, nat>
    var accounts: map<nat, Account>
    var messages: map<nat, Message>
    var roles: set<RoleRow>
    var attachments: seq<Attachment>
    var status: map<nat, Status>

    /** The tables and files as one value. */
    ghost function View(): Store
      reads this, cas
    {
      Store(people, identifiers, accounts, messages, roles, attachments, status, cas.files)
    }

    constructor (cas: CasStore)
      ensures this.cas == cas
      ensures View() == Store(map[], map[], map[], map[], {}, [], map[], cas.files)
    {
      this.cas := cas;
      people, identifiers, accounts, messages := map[], map[], map[], map[];
      roles, attachments, status := {}, [], map[];
    }

    // -------------------------------------------------------------- identity.py

    /** `find_or_create_person`. */
    method FindOrCreatePerson(c: Contact) returns (id: nat)
      modifies this
      ensures (View(), id) == FindOrCreate(old(View()), c)
      ensures c.ident in old(identifiers) ==> View() == old(View()) && id == identifiers[c.ident]
      ensures c.ident !in old(identifiers) ==>
                && id !in old(people) && people == old(people)[id := Person(c.name, c.surname, false)]
                && identifiers == old(identifiers)[c.ident := id]
                && View() == old(View()).(people := people, identifiers := identifiers)
    {
      if c.ident in identifiers {
        return identifiers[c.ident];
      }
      id := NextId(people.Keys);
      people := people[id := Person(c.name, c.surname, false)];
      identifiers := identifiers[c.ident := id];
    }

    /** `merge_people`: re-point every reference, then delete the discarded person; a foreign key that
        fails rolls everything back. */
    method MergePeople(keep: nat, discard: nat) returns (error: Option<Failure>)
      modifies this
      ensures var r := Identity.MergePeople(old(View()), keep, discard);
              View() == (if r.Ok? then r.value else old(View())) && error == (if r.Ok? then None else Some(r.error))
      ensures error.None? ==> Merged(old(View()), keep, discard, View())
      ensures error.Some? ==> View() == old(View())
      ensures error.Some? <==> keep == discard || (keep !in old(people) && Referenced(old(View()), discard))
    {
      MergePeopleIs(View(), keep, discard);
      if keep == discard {
        return Some(SelfMerge);
      }
      var dangling := Mentions(discard);
      var before := (people, identifiers, accounts, roles);
      Repoint(keep, discard);
      if dangling && keep !in before.0 {
        people, identifiers, accounts, roles := before.0, before.1, before.2, before.3;
        return Some(ForeignKey);
      }
      return None;
    }

    method Mentions(p: nat) returns (b: bool)
      ensures b == Referenced(View(), p)
    {
      var owned := set i | i in identifiers && identifiers[i] == p;
      var owning := set a | a in accounts && accounts[a].owner == p;
      var named := set r | r in roles && r.person == p;
      assert owned != {} <==> exists i :: i in identifiers && identifiers[i] == p by {
        if i :| i in identifiers && identifiers[i] == p { assert i in owned; }
      }
      assert owning != {} <==> exists a :: a in accounts && accounts[a].owner == p by {
        if a :| a in accounts && accounts[a].owner == p { assert a in owning; }
      }
      assert named != {} <==> exists r :: r in roles && r.person == p by {
        if r :| r in roles && r.person == p { assert r in named; }
      }
      b := owned != {} || owning != {} || named != {};
    }

    /** The statements of the transaction, table by table. */
    method Repoint(keep: nat, discard: nat)
      requires keep != discard
      modifies this
      ensures View() == Quotient(old(View()), map[discard := keep])
    {
      ghost var was := View();
      RepointIdentifiers(keep, discard);
      RepointAccounts(keep, discard);
      RepointRoles(keep, discard);
      people := people - {discard};
      Assemble(was, View(), map[discard := keep]);
    }

    /** The first DELETE, of identifiers the kept person has too, finds none because (kind, value) is
        unique. */
    method RepointIdentifiers(keep: nat, discard: nat)
      requires keep != discard
      modifies this`identifiers
      ensures identifiers == MovedIdents(map[discard := keep], old(identifiers))
    {
      var kept := set i | i in identifiers && identifiers[i] == keep;
      identifiers := map i | i in identifiers && !(identifiers[i] == discard && i in kept) :: identifiers[i];
      assert identifiers == old(identifiers);
      identifiers := map i | i in identifiers :: if identifiers[i] == discard then keep else identifiers[i];
    }

    method RepointAccounts(keep: nat, discard: nat)
      modifies this`accounts
      ensures accounts == MovedAccounts(map[discard := keep], old(accounts))
    {
      accounts := map a | a in accounts ::
        if accounts[a].owner == discard then accounts[a].(owner := keep) else accounts[a];
    }

    /** INSERT OR IGNORE of the re-pointed rows, then DELETE of the originals. */
    method RepointRoles(keep: nat, discard: nat)
      requires keep != discard
      modifies this`roles
      ensures roles == MovedRoles(map[discard := keep], old(roles))
    {
      roles := roles + set r | r in roles && r.person == discard :: r.(person := keep);
      roles := set r | r in roles && r.person != discard;
      RepointedRoles(old(roles), keep, discard);
    }

    // -------------------------------------------------------------- owners and accounts

    /** `upsert_owner`. */
    method UpsertOwner(name: string, surname: Option<string>, raw: seq<RawIdent>) returns (r: Result<nat>)
      requires Valid(View())
      modifies this
      ensures var spec := Identity.UpsertOwner(old(View()), name, surname, Idents(cas.x, raw));
              && View() == (if spec.Ok? then spec.value.0 else old(View()))
              && r == (if spec.Ok? then Ok(spec.value.1) else Err(spec.error))
      ensures r.Ok? ==> OwnerIs(cas.x, old(View()), raw, View(), r.value, Person(name, surname, true))
      ensures r.Err? <==> Fails(cas.x, old(View()), raw)
      ensures r.Err? ==> r.error == UniqueKey && View() == old(View())
    {
      var ids := Idents(cas.x, raw);
      ghost var was := View();
      var matched := MatchedPeople(ids);
      if matched != [] {
        r := UpdateOwner(name, surname, ids, matched);
      } else {
        r := InsertOwner(name, surname, ids);
      }
      UpsertFailsIff(cas.x, was, name, surname, raw);
      if r.Ok? { UpsertOwnerIs(cas.x, was, name, surname, raw, View(), r.value); }
    }

    /** The lookups: whoever holds one of the identifiers, in order and once each. */
    method MatchedPeople(ids: seq<Ident>) returns (matched: seq<nat>)
      ensures matched == Matched(identifiers, ids)
    {
      matched := [];
      var k := 0;
      while k < |ids|
        invariant 0 <= k <= |ids|
        invariant matched == Matched(identifiers, ids[..k])
      {
        assert ids[..k + 1][..k] == ids[..k];
        if ids[k] in identifiers && identifiers[ids[k]] !in matched {
          matched := matched + [identifiers[ids[k]]];
        }
        k := k + 1;
      }
      assert ids[..|ids|] == ids;
    }

    /** The branch with a match: merge the others into the first, rename it, attach what is missing. */
    method UpdateOwner(name: string, surname: Option<string>, ids: seq<Ident>, matched: seq<nat>)
        returns (r: Result<nat>)
      requires forall i :: i in identifiers ==> identifiers[i] in people
      requires matched == Matched(identifiers, ids) && matched != []
      modifies this
      ensures Identity.UpsertOwner(old(View()), name, surname, ids) == Ok((View(), matched[0]))
      ensures r == Ok(matched[0])
    {
      var keep := matched[0];
      MatchedAreOthers(identifiers, ids);
      assert matched[0] in matched;
      MergeStrays(keep, matched[1..]);
      people := people[keep := Person(name, surname, true)];
      AttachMissing(keep, ids);
      return Ok(keep);
    }

    method MergeStrays(keep: nat, strays: seq<nat>)
      requires keep in people && keep !in strays
      modifies this
      ensures View() == Quotient(old(View()), Collapse(strays, keep))
    {
      ghost var was := View();
      var k := 0;
      while k < |strays|
        invariant 0 <= k <= |strays|
        invariant MergeEach(was, keep, strays[..k]) == Ok(View())
      {
        assert strays[..k + 1][..k] == strays[..k];
        MergeEachIsOneMove(was, keep, strays[..k + 1]);
        var error := MergePeople(keep, strays[k]);
        k := k + 1;
      }
      assert strays[..|strays|] == strays;
      MergeEachIsOneMove(was, keep, strays);
    }

    /** INSERT OR IGNORE of each identifier. */
    method AttachMissing(p: nat, ids: seq<Ident>)
      modifies this`identifiers
      ensures identifiers == Attach(old(identifiers), ids, p)
    {
      var k := 0;
      while k < |ids|
        invariant 0 <= k <= |ids|
        invariant identifiers == Attach(old(identifiers), ids[..k], p)
      {
        AttachNext(old(identifiers), ids, k, p);
        if ids[k] !in identifiers {
          identifiers := identifiers[ids[k] := p];
        }
        k := k + 1;
      }
      assert ids[..|ids|] == ids;
    }

    /** The branch without a match: a new owner row and all its identifiers by plain INSERT. On a
        repeated identifier the exception leaves the transaction open, and closing the connection
        rolls it back. */
    method InsertOwner(name: string, surname: Option<string>, ids: seq<Ident>) returns (r: Result<nat>)
      requires Matched(identifiers, ids) == []
      modifies this
      ensures var spec := Identity.UpsertOwner(old(View()), name, surname, ids);
              && View() == (if spec.Ok? then spec.value.0 else old(View()))
              && r == (if spec.Ok? then Ok(spec.value.1) else Err(spec.error))
    {
      var before := people;
      var id := NextId(people.Keys);
      NoneMatched(identifiers, ids);
      people := people[id := Person(name, surname, true)];
      var distinct := InsertIdentifiers(id, ids);
      if !distinct {
        people := before;
        return Err(UniqueKey);
      }
      return Ok(id);
    }

    /** Plain INSERTs; on a duplicate nothing of them remains. */
    method InsertIdentifiers(p: nat, ids: seq<Ident>) returns (distinct: bool)
      requires forall i :: i in ids ==> i !in identifiers
      modifies this`identifiers
      ensures distinct == Distinct(ids)
      ensures identifiers == if distinct then Attach(old(identifiers), ids, p) else old(identifiers)
    {
      var before := identifiers;
      var k := 0;
      while k < |ids|
        invariant 0 <= k <= |ids|
        invariant Distinct(ids[..k])
        invariant identifiers == Attach(before, ids[..k], p)
      {
        AttachNext(before, ids, k, p);
        if ids[k] in identifiers {
          RepeatedIdent(before, ids, k, p);
          identifiers := before;
          return false;
        }
        identifiers := identifiers[ids[k] := p];
        k := k + 1;
      }
      assert ids[..|ids|] == ids;
      return true;
    }

    /** `upsert_account`. */
    method UpsertAccount(account: Account) returns (r: Result<nat>)
      modifies this
      ensures var spec := Identity.UpsertAccount(old(View()), account);
              && View() == (if spec.Ok? then spec.value.0 else old(View()))
              && r == (if spec.Ok? then Ok(spec.value.1) else Err(spec.error))
      ensures if HasAccount(old(View()), account)
              then View() == old(View()) && r.Ok? && r.value in accounts && SameAccount(accounts[r.value], account)
              else if account.owner !in old(people) then View() == old(View()) && r == Err(ForeignKey)
              else r.Ok? && r.value !in old(accounts)
                   && View() == old(View()).(accounts := old(accounts)[r.value := account])
    {
      UpsertAccountIs(View(), account);
      var found := AccountsNamed(accounts, account.source, account.identifier);
      if found != {} {
        return Ok(MaxOf(found));
      }
      if account.owner !in people {
        return Err(ForeignKey);
      }
      var id := NextId(accounts.Keys);
      accounts := accounts[id := account];
      return Ok(id);
    }

    // -------------------------------------------------------------- messages

    /** `save_email`. */
    method SaveEmail(msg: EmailMessage) returns (o: Outcome)
      modifies this, cas
      ensures (View(), o) == SaveMessage(cas.x, old(View()), FromEmail(cas.x, msg))
      ensures old(Valid(View())) ==>
                Decided(cas.x, old(View()), msg.account, msg.externalId, msg.blobs, View(), o)
      ensures old(Valid(View())) && o.Inserted? ==> MailAdded(cas.x, old(View()), View(), msg, o.id)
    {
      ghost var was := View();
      if Valid(was) {
        SaveEmailDecides(cas.x, was, msg);
        if SaveMessage(cas.x, was, FromEmail(cas.x, msg)).1.Inserted? { SaveEmailAdds(cas.x, was, msg); }
      }
      o := Save(FromEmail(cas.x, msg));
    }

    /** `save_imessage`. */
    method SaveIMessage(msg: Saving.IMessage) returns (o: Outcome)
      modifies this, cas
      ensures (View(), o) == SaveMessage(cas.x, old(View()), FromIMessage(cas.x, msg))
      ensures old(Valid(View())) ==>
                Decided(cas.x, old(View()), msg.account, msg.externalId, msg.blobs, View(), o)
      ensures old(Valid(View())) && o.Inserted? ==> ChatAdded(cas.x, old(View()), View(), msg, o.id)
    {
      ghost var was := View();
      if Valid(was) {
        SaveIMessageDecides(cas.x, was, msg);
        if SaveMessage(cas.x, was, FromIMessage(cas.x, msg)).1.Inserted? { SaveIMessageAdds(cas.x, was, msg); }
      }
      o := Save(FromIMessage(cas.x, msg));
    }

    /** What both do: write the files, resolve the people, and run the transaction. */
    method Save(m: Incoming) returns (o: Outcome)
      modifies this, cas
      ensures (View(), o) == SaveMessage(cas.x, old(View()), m)
    {
      WriteFiles(m.blobs);
      var pids := LookUp(Contacts(m.parties));
      o := InsertOnce(m, pids);
    }

    method WriteFiles(blobs: seq<Blob>)
      modifies cas
      ensures View() == WriteBlobs(cas.x, old(View()), blobs)
    {
      ghost var was := View();
      var k := 0;
      while k < |blobs|
        invariant 0 <= k <= |blobs|
        invariant View() == WriteBlobs(cas.x, was, blobs[..k])
      {
        assert blobs[..k + 1][..k] == blobs[..k];
        var h := cas.Write(blobs[k].content);
        k := k + 1;
      }
      assert blobs[..|blobs|] == blobs;
    }

    method LookUp(cs: seq<Contact>) returns (pids: seq<nat>)
      modifies this
      ensures (View(), pids) == FindOrCreateAll(old(View()), cs)
    {
      ghost var was := View();
      pids := [];
      var k := 0;
      while k < |cs|
        invariant 0 <= k <= |cs|
        invariant (View(), pids) == FindOrCreateAll(was, cs[..k])
      {
        assert cs[..k + 1][..k] == cs[..k];
        var pid := FindOrCreatePerson(cs[k]);
        pids := pids + [pid];
        k := k + 1;
      }
      assert cs[..|cs|] == cs;
    }

    /** The transaction of a save. */
    method InsertOnce(m: Incoming, pids: seq<nat>) returns (o: Outcome)
      requires |pids| == |m.parties|
      modifies this
      ensures (View(), o) == InsertMessage(cas.x, old(View()), m, pids)
      ensures o.Skipped? <==> Known(old(View()), m.account, m.externalId)
      ensures o.Refused? <==> !Known(old(View()), m.account, m.externalId)
                              && (m.account !in accounts || exists p :: p in pids && p !in people)
      ensures !o.Inserted? ==> View() == old(View())
      ensures old(ForeignKeys(View())) && o.Inserted? ==> Transacted(cas.x, old(View()), View(), m, pids, o.id)
    {
      ghost var was := View();
      o := Transact(m, pids);
      InsertIs(cas.x, was, m, pids);
      if ForeignKeys(was) && o.Inserted? { InsertTransacts(cas.x, was, m, pids); }
    }

    /** Its statements. A foreign key that fails rolls everything back. */
    method Transact(m: Incoming, pids: seq<nat>) returns (o: Outcome)
      requires |pids| == |m.parties|
      modifies this
      ensures (View(), o) == InsertMessage(cas.x, old(View()), m, pids)
    {
      var found := MessagesNamed(messages, m.account, m.externalId);
      if found != {} {
        return Skipped(MaxOf(found));
      }
      if m.account !in accounts {
        return Refused(UnknownAccount);
      }
      var before := (messages, roles);
      var id := NextId(messages.Keys);
      messages := messages[id := Message(m.account, accounts[m.account].source, m.externalId, m.sentAt,
                                         m.bodyText, m.outbound, m.detail)];
      var inserted := InsertRoles(id, m, pids);
      if !inserted {
        messages, roles := before.0, before.1;
        return Refused(ForeignKey);
      }
      InsertAttachments(id, m.blobs);
      return Inserted(id);
    }

    /** INSERT OR IGNORE of the message's people, up to a foreign key that fails. */
    method InsertRoles(id: nat, m: Incoming, pids: seq<nat>) returns (ok: bool)
      requires |pids| == |m.parties|
      modifies this`roles
      ensures ok == forall k :: 0 <= k < |pids| ==> pids[k] in people
      ensures ok ==> roles == old(roles) + RoleRows(id, pids, m.parties)
    {
      var k := 0;
      while k < |pids|
        invariant 0 <= k <= |pids|
        invariant forall j :: 0 <= j < k ==> pids[j] in people
        invariant roles == old(roles) + RoleRows(id, pids[..k], m.parties[..k])
      {
        if pids[k] !in people {
          return false;
        }
        OneMoreRole(id, pids, m.parties, k);
        roles := roles + {RoleRow(id, pids[k], m.parties[k].role)};
        k := k + 1;
      }
      assert pids[..|pids|] == pids && m.parties[..|pids|] == m.parties;
      return true;
    }

    method InsertAttachments(id: nat, blobs: seq<Blob>)
      modifies this`attachments
      ensures attachments == old(attachments) + AttachmentRows(cas.x, id, blobs)
    {
      var k := 0;
      while k < |blobs|
        invariant 0 <= k <= |blobs|
        invariant attachments == old(attachments) + AttachmentRows(cas.x, id, blobs[..k])
      {
        assert AttachmentRows(cas.x, id, blobs[..k + 1])
            == AttachmentRows(cas.x, id, blobs[..k]) + [AttachmentRow(cas.x, id, blobs[k])];
        attachments := attachments + [AttachmentRow(cas.x, id, blobs[k])];
        k := k + 1;
      }
      assert blobs[..|blobs|] == blobs;
    }

    // -------------------------------------------------------------- read helpers and status

    /** `latest_imap_uid`. */
    method LatestImapUid(account: nat, mailbox: string) returns (uid: Option<nat>)
      ensures uid == Mail.LatestUid(View(), account, mailbox)
      ensures Mail.IsLatestUid(View(), account, mailbox, uid)
    {
      var rows := set m | m in messages && messages[m].account == account :: messages[m];
      var uids := Mail.UidsIn(rows, mailbox);
      Mail.LatestUidIsLatest(View(), account, mailbox);
      if uids == {} {
        return None;
      }
      return Some(MaxOf(uids));
    }

    /** `latest_sent_at`, before the text is parsed. */
    method LatestSentAt(account: nat) returns (text: Option<string>)
      ensures text == IMessage.LatestSentAt(View(), account)
      ensures IMessage.IsLatestSentAt(View(), account, text)
    {
      var rows := set m | m in messages && messages[m].account == account :: messages[m];
      IMessage.LatestSentAtIsLatest(View(), account);
      text := MaxText(IMessage.SentAts(rows));
    }

    /** `update_sync_status(success=True, messages_added=added)`. */
    method RecordSuccess(account: nat, added: nat)
      modifies this
      ensures View() == History.RecordSuccess(old(View()), account, added)
    {
      if account in accounts {
        if account in status {
          status := status[account := Status(status[account].ingested + added, None)];
        } else {
          status := status[account := Status(added, None)];
        }
      }
    }

    /** `update_sync_status(success=False, error=error)`. */
    method RecordFailure(account: nat, error: string)
      modifies this
      ensures View() == History.RecordFailure(old(View()), account, error)
    {
      if account in accounts {
        if account in status {
          status := status[account := status[account].(lastError := Some(error))];
        } else {
          status := status[account := Status(0, Some(error))];
        }
      }
    }
  }

  // ---------------------------------------------------------------- what the loops rely on

  lemma {:induction false} Assemble(was: Store, now: Store, f: map<nat, nat>)
    requires now == was.(people := now.people, identifiers := now.identifiers, accounts := now.accounts,
                         roles := now.roles)
    requires now.people.Keys == was.people.Keys - f.Keys
    requires forall p :: p in now.people ==> now.people[p] == was.people[p]
    requires now.identifiers == MovedIdents(f, was.identifiers) && now.accounts == MovedAccounts(f, was.accounts)
    requires now.roles == MovedRoles(f, was.roles)
    ensures now == Quotient(was, f)
  {
    assert now.people == was.people - f.Keys;
  }

  /** Copying rows to the kept person and deleting the originals re-points them. */
  lemma {:induction false} RepointedRoles(roles: set<RoleRow>, keep: nat, discard: nat)
    requires keep != discard
    ensures var copied := roles + set r | r in roles && r.person == discard :: r.(person := keep);
            (set r | r in copied && r.person != discard) == MovedRoles(map[discard := keep], roles)
  {
    var f := map[discard := keep];
    var copied := roles + set r | r in roles && r.person == discard :: r.(person := keep);
    forall r | r in copied && r.person != discard ensures r in MovedRoles(f, roles) {
      if r in roles {
        assert r == MovedRole(f, r);
      } else {
        var o :| o in roles && o.person == discard && r == o.(person := keep);
        assert r == MovedRole(f, o);
      }
    }
  }

  lemma {:induction false} NoneMatched(identifiers: map<Ident, nat>, ids: seq<Ident>)
    requires Matched(identifiers, ids) == []
    ensures forall i :: i in ids ==> i !in identifiers
  {
    assert forall i :: i in ids && i in identifiers ==> identifiers[i] in Matched(identifiers, ids);
  }

  lemma {:induction false} AttachNext(identifiers: map<Ident, nat>, ids: seq<Ident>, k: nat, p: nat)
    requires k < |ids|
    ensures var a := Attach(identifiers, ids[..k], p);
            && Attach(identifiers, ids[..k + 1], p) == (if ids[k] in a then a else a[ids[k] := p])
            && (ids[k] !in a && Distinct(ids[..k]) ==> Distinct(ids[..k + 1]))
  {
    assert ids[..k + 1] == ids[..k] + [ids[k]];
  }

  /** An identifier that is suddenly there was listed before. */
  lemma {:induction false} RepeatedIdent(identifiers: map<Ident, nat>, ids: seq<Ident>, k: nat, p: nat)
    requires k < |ids| && ids[k] in Attach(identifiers, ids[..k], p) && ids[k] !in identifiers
    ensures !Distinct(ids)
  {
    var j :| 0 <= j < k && ids[..k][j] == ids[k];
    assert ids[j] == ids[k];
  }

  lemma {:induction false} OneMoreRole(id: nat, pids: seq<nat>, parties: seq<Party>, k: nat)
    requires |pids| == |parties| && k < |pids|
    ensures RoleRows(id, pids[..k + 1], parties[..k + 1])
         == RoleRows(id, pids[..k], parties[..k]) + {RoleRow(id, pids[k], parties[k].role)}
  {
    var a, b := RoleRows(id, pids[..k], parties[..k]), RoleRows(id, pids[..k + 1], parties[..k + 1]);
    forall j | 0 <= j < k ensures RoleRow(id, pids[j], parties[j].role) in b {
      assert pids[..k + 1][j] == pids[j] && parties[..k + 1][j] == parties[j];
    }
    forall r | r in a ensures r in b {
      var j :| 0 <= j < k && r == RoleRow(id, pids[..k][j], parties[..k][j].role);
      assert r == RoleRow(id, pids[j], parties[j].role);
    }
    assert pids[..k + 1][k] == pids[k] && parties[..k + 1][k] == parties[k];
    forall r | r in b ensures r in a + {RoleRow(id, pids[k], parties[k].role)} {
      var j :| 0 <= j < k + 1 && r == RoleRow(id, pids[..k + 1][j], parties[..k + 1][j].role);
      if j < k {
        assert r == RoleRow(id, pids[..k][j], parties[..k][j].role);
      }
    }
  }
}
