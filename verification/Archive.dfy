/** One account's messages as a map from external id to row, how a run of saves changes it, and the
    counters kept beside it. */
module Archive {
  import opened Prelude
  import opened Schema
  import opened Identity
  import opened Saving
  import opened History
  import opened ResumableLog

  /** The messages stored for an account, by external id. Under UniqueKeys an id names one row. */
  ghost function Archived(s: Store, account: nat): map<string, Message> {
    map e | e in ExternalIds(s, account) :: s.messages[MaxOf(MessagesNamed(s.messages, account, e))]
  }

  ghost function ExternalIds(s: Store, account: nat): (es: set<string>)
    ensures forall e :: e in es <==> MessagesNamed(s.messages, account, e) != {}
  {
    var es := set m | m in s.messages && s.messages[m].account == account :: s.messages[m].externalId;
    forall e ensures e in es <==> MessagesNamed(s.messages, account, e) != {} {
      if e in es {
        var m :| m in s.messages && s.messages[m].account == account && s.messages[m].externalId == e;
        assert m in MessagesNamed(s.messages, account, e);
      }
      if m :| m in MessagesNamed(s.messages, account, e) {
        assert s.messages[m].externalId == e;
      }
    }
    es
  }

  function MessageIds(s: Store, account: nat): set<nat> {
    set m | m in s.messages && s.messages[m].account == account
  }

  function EntryOf(source: string, m: Incoming): Entry<Message> {
    Entry(m.externalId, RowOf(source, m))
  }

  function Entries(source: string, ms: seq<Incoming>): (es: seq<Entry<Message>>)
    ensures |es| == |ms|
  {
    seq(|ms|, k requires 0 <= k < |ms| => EntryOf(source, ms[k]))
  }

  /** The state and counters of a sync loop; a refused save raises and ends it. */
  datatype Tally = Tally(store: Store, inserted: nat, skipped: nat, error: Option<Failure>)

  /** The tally after one more save. */
  function Counted(t: Tally, s: Store, o: Outcome): Tally {
    match o
    case Inserted(_) => Tally(s, t.inserted + 1, t.skipped, None)
    case Skipped(_) => Tally(s, t.inserted, t.skipped + 1, None)
    case Refused(e) => Tally(s, t.inserted, t.skipped, Some(e))
  }

  function SaveNext(x: Library, t: Tally, m: Incoming): Tally {
    var (s, o) := SaveMessage(x, t.store, m);
    Counted(t, s, o)
  }

  function SaveEach(x: Library, s: Store, ms: seq<Incoming>): Tally
    decreases |ms|
  {
    if ms == [] then Tally(s, 0, 0, None) else
      var t := SaveEach(x, s, ms[..|ms| - 1]);
      if t.error.Some? then t else SaveNext(x, t, ms[|ms| - 1])
  }

  lemma {:induction false} SaveEachStep(x: Library, s: Store, ms: seq<Incoming>, k: nat)
    requires k < |ms| && SaveEach(x, s, ms[..k]).error.None?
    ensures SaveEach(x, s, ms[..k + 1]) == SaveNext(x, SaveEach(x, s, ms[..k]), ms[k])
  {
    assert ms[..k + 1][..k] == ms[..k];
  }

  lemma {:induction false} NextTally(x: Library, s: Store, ms: seq<Incoming>, k: nat, t: Tally, u: Store, o: Outcome)
    requires k < |ms| && SaveEach(x, s, ms[..k]) == t && t.error.None? && SaveMessage(x, t.store, ms[k]) == (u, o)
    ensures SaveEach(x, s, ms[..k + 1]) == Counted(t, u, o)
  {
    SaveEachStep(x, s, ms, k);
  }

  lemma {:induction false} SaveEachStopsAt(x: Library, s: Store, ms: seq<Incoming>, k: nat)
    requires k <= |ms| && SaveEach(x, s, ms[..k]).error.Some?
    ensures SaveEach(x, s, ms) == SaveEach(x, s, ms[..k])
    decreases |ms|
  {
    if k < |ms| {
      assert ms[..|ms| - 1][..k] == ms[..k];
      SaveEachStopsAt(x, s, ms[..|ms| - 1], k);
    } else {
      assert ms[..k] == ms;
    }
  }

  /** Messages of one existing account, each with its sender. */
  ghost predicate ForAccount(s: Store, account: nat, ms: seq<Incoming>) {
    account in s.accounts && forall k :: 0 <= k < |ms| ==> ms[k].account == account && OneFrom(ms[k])
  }

  lemma {:induction false} NamedAfter(s: Store, t: Store, id: nat, row: Message, e: string)
    requires id !in s.messages && t.messages == s.messages[id := row]
    requires MessagesNamed(s.messages, row.account, row.externalId) == {}
    ensures MessagesNamed(t.messages, row.account, e) ==
            if e == row.externalId then {id} else MessagesNamed(s.messages, row.account, e)
  {
  }

  ghost function RowNamed(s: Store, account: nat, e: string): Option<Message> {
    var found := MessagesNamed(s.messages, account, e);
    if found == {} then None else Some(s.messages[MaxOf(found)])
  }

  lemma {:induction false} LookUp(s: Store, account: nat, e: string)
    ensures e in Archived(s, account) <==> RowNamed(s, account, e).Some?
    ensures e in Archived(s, account) ==> Archived(s, account)[e] == RowNamed(s, account, e).value
  {
  }

  lemma {:induction false} RowAfter(s: Store, t: Store, id: nat, row: Message, e: string)
    requires id !in s.messages && t.messages == s.messages[id := row]
    requires MessagesNamed(s.messages, row.account, row.externalId) == {}
    ensures RowNamed(t, row.account, e) == if e == row.externalId then Some(row) else RowNamed(s, row.account, e)
  {
    NamedAfter(s, t, id, row, e);
  }

  lemma {:induction false} SameMap<K, V>(a: map<K, V>, b: map<K, V>)
    requires forall e :: (e in b <==> e in a) && (e in b ==> b[e] == a[e])
    ensures b == a
  {
  }

  lemma {:induction false} AddedRow(s: Store, t: Store, id: nat, row: Message)
    requires id !in s.messages && t.messages == s.messages[id := row]
    requires MessagesNamed(s.messages, row.account, row.externalId) == {}
    ensures Archived(t, row.account) == Archived(s, row.account)[row.externalId := row]
  {
    var a, b := Archived(s, row.account)[row.externalId := row], Archived(t, row.account);
    forall e ensures (e in b <==> e in a) && (e in b ==> b[e] == a[e]) {
      AddedRowAt(s, t, id, row, e);
    }
    SameMap(a, b);
  }

  lemma {:induction false} AddedRowAt(s: Store, t: Store, id: nat, row: Message, e: string)
    requires id !in s.messages && t.messages == s.messages[id := row]
    requires MessagesNamed(s.messages, row.account, row.externalId) == {}
    ensures var a, b := Archived(s, row.account), Archived(t, row.account);
            && (e in b <==> e == row.externalId || e in a)
            && (e in b ==> b[e] == if e == row.externalId then row else a[e])
  {
    LookUp(s, row.account, e);
    LookUp(t, row.account, e);
    RowAfter(s, t, id, row, e);
  }

  /** How adding `m` relates the account's rows before and after. */
  ghost predicate Adds(s: Store, m: Incoming, t: Store, o: Outcome)
    requires m.account in s.accounts
  {
    && m.account in t.accounts && t.accounts[m.account].source == s.accounts[m.account].source
    && Ingested(t, m.account) == Ingested(s, m.account)
    && Archived(t, m.account) == Put(Archived(s, m.account), EntryOf(s.accounts[m.account].source, m))
    && (if m.externalId in Archived(s, m.account)
        then o.Skipped? && MessageIds(t, m.account) == MessageIds(s, m.account)
        else o.Inserted? && o.id !in MessageIds(s, m.account)
             && MessageIds(t, m.account) == MessageIds(s, m.account) + {o.id})
  }

  function Ingested(s: Store, account: nat): nat {
    if account in s.status then s.status[account].ingested else 0
  }

  lemma {:induction false} IdsAfter(s: Store, t: Store, id: nat, row: Message)
    requires id !in s.messages && t.messages == s.messages[id := row]
    ensures MessageIds(t, row.account) == MessageIds(s, row.account) + {id}
  {
  }

  lemma {:induction false} KnownIsArchived(s: Store, account: nat, e: string)
    ensures e in Archived(s, account) <==> MessagesNamed(s.messages, account, e) != {}
  {
  }

  lemma {:induction false} InsertArchives(x: Library, s: Store, m: Incoming, pids: seq<nat>)
    requires m.account in s.accounts && |pids| == |m.parties|
    ensures var (t, o) := InsertMessage(x, s, m, pids);
            && t.accounts == s.accounts && t.status == s.status
            && (o.Refused? ==> o.error == ForeignKey && t == s)
            && (!o.Refused? ==> Adds(s, m, t, o))
  {
    var (t, o) := InsertMessage(x, s, m, pids);
    KnownIsArchived(s, m.account, m.externalId);
    if o.Inserted? {
      var row := RowOf(s.accounts[m.account].source, m);
      assert t.messages == s.messages[o.id := row];
      AddedRow(s, t, o.id, row);
      IdsAfter(s, t, o.id, row);
    }
  }

  /** One save, with nobody else writing, acts on its account's archive as insert-if-absent. */
  lemma {:induction false} SaveArchives(x: Library, s: Store, m: Incoming)
    requires Valid(s) && m.account in s.accounts && OneFrom(m)
    ensures var (t, o) := SaveMessage(x, s, m);
            Valid(t) && t.accounts == s.accounts && t.status == s.status && Adds(s, m, t, o)
  {
    var u, cs := WriteBlobs(x, s, m.blobs), Contacts(m.parties);
    assert Valid(u) && u == s.(blobs := u.blobs) by {
      BlobsThere(x, s, m.blobs);
      SameRolesSameSender(s, u);
    }
    PeopleThenInsert(x, u, m);
    SameArchive(s, u, m.account);
  }

  lemma {:induction false} PeopleThenInsert(x: Library, u: Store, m: Incoming)
    requires Valid(u) && m.account in u.accounts && OneFrom(m)
    ensures var (v, pids) := FindOrCreateAll(u, Contacts(m.parties));
            var (t, o) := InsertMessage(x, v, m, pids);
            Valid(t) && t.accounts == u.accounts && t.status == u.status && Adds(u, m, t, o)
  {
    var cs := Contacts(m.parties);
    var (v, pids) := FindOrCreateAll(u, cs);
    FindOrCreateAllExtends(u, cs);
    InsertKeepsValid(x, v, m, pids);
    forall k | 0 <= k < |pids| ensures pids[k] in v.people {
      assert ResolvesTo(v, cs[k].ident, pids[k]);
    }
    InsertArchives(x, v, m, pids);
    SameArchive(u, v, m.account);
  }

  lemma {:induction false} SameArchive(s: Store, t: Store, account: nat)
    requires t.messages == s.messages
    ensures Archived(t, account) == Archived(s, account) && MessageIds(t, account) == MessageIds(s, account)
  {
  }

  // ---------------------------------------------------------------- one loop of saves

  /** What a loop of saves has done so far. */
  ghost predicate Took(s: Store, account: nat, ms: seq<Incoming>, t: Tally)
    requires account in s.accounts
  {
    && Valid(t.store) && account in t.store.accounts
    && t.store.accounts[account].source == s.accounts[account].source
    && Ingested(t.store, account) == Ingested(s, account)
    && t.inserted + t.skipped == |ms|
    && Archived(t.store, account) == PutAll(Archived(s, account), Entries(s.accounts[account].source, ms))
    && |MessageIds(t.store, account)| == |MessageIds(s, account)| + t.inserted
  }

  lemma {:induction false} NothingTaken(s: Store, account: nat)
    requires Valid(s) && account in s.accounts
    ensures Took(s, account, [], Tally(s, 0, 0, None))
  {
    assert Entries(s.accounts[account].source, []) == [];
  }

  lemma {:induction false} EntriesNext(a: map<string, Message>, source: string, ms: seq<Incoming>)
    requires ms != []
    ensures PutAll(a, Entries(source, ms))
         == Put(PutAll(a, Entries(source, ms[..|ms| - 1])), EntryOf(source, ms[|ms| - 1]))
  {
    assert Entries(source, ms)[..|ms| - 1] == Entries(source, ms[..|ms| - 1]);
  }

  lemma {:induction false} OneMore(ids: set<nat>, id: nat)
    requires id !in ids
    ensures |ids + {id}| == |ids| + 1
  {
  }

  lemma {:induction false} TookNext(s: Store, account: nat, ms: seq<Incoming>, t: Tally, u: Store, o: Outcome)
    requires ForAccount(s, account, ms) && ms != []
    requires Took(s, account, ms[..|ms| - 1], t)
    requires Valid(u) && Adds(t.store, ms[|ms| - 1], u, o)
    ensures Took(s, account, ms, Counted(t, u, o))
  {
    var m := ms[|ms| - 1];
    EntriesNext(Archived(s, account), s.accounts[account].source, ms);
    if o.Inserted? { OneMore(MessageIds(t.store, account), o.id); }
  }

  lemma {:induction false} SaveNextTakes(x: Library, s: Store, account: nat, ms: seq<Incoming>, t: Tally)
    requires ForAccount(s, account, ms) && ms != [] && Took(s, account, ms[..|ms| - 1], t)
    ensures Took(s, account, ms, SaveNext(x, t, ms[|ms| - 1])) && SaveNext(x, t, ms[|ms| - 1]).error.None?
  {
    SaveArchives(x, t.store, ms[|ms| - 1]);
    var (u, o) := SaveMessage(x, t.store, ms[|ms| - 1]);
    TookNext(s, account, ms, t, u, o);
  }

  /** With nobody else writing no save is refused: every message is inserted or skipped. */
  lemma {:induction false} SaveEachAlone(x: Library, s: Store, account: nat, ms: seq<Incoming>)
    requires Valid(s) && ForAccount(s, account, ms)
    ensures SaveEach(x, s, ms).error.None? && Took(s, account, ms, SaveEach(x, s, ms))
    decreases |ms|
  {
    if ms == [] {
      NothingTaken(s, account);
    } else {
      SaveEachAlone(x, s, account, ms[..|ms| - 1]);
      SaveNextTakes(x, s, account, ms, SaveEach(x, s, ms[..|ms| - 1]));
    }
  }

  lemma {:induction false} EntriesSlice(source: string, log: seq<Incoming>, j: nat, n: nat)
    requires j <= n <= |log|
    ensures Entries(source, log[j..n]) == Entries(source, log)[j..n]
  {
    assert forall k :: 0 <= k < n - j ==> log[j..n][k] == log[j + k];
  }

  lemma {:induction false} SliceForAccount(s: Store, account: nat, log: seq<Incoming>, j: nat, n: nat)
    requires ForAccount(s, account, log) && j <= n <= |log|
    ensures ForAccount(s, account, log[j..n])
  {
  }

  // ---------------------------------------------------------------- others writing meanwhile

  /** A step of somebody else: anything but the transaction of a save or a recorded success of this
      account. */
  ghost predicate Foreign(step: Step, account: nat) {
    WellFormed(step) && (step.Insert? ==> step.m.account != account) && (step.SyncDone? ==> step.accountId != account)
  }

  ghost predicate AllForeign(steps: seq<Step>, account: nat) {
    forall k :: 0 <= k < |steps| ==> Foreign(steps[k], account)
  }

  /** The account's rows, source and counter are the same in `s` and `t`. */
  ghost predicate Undisturbed(s: Store, t: Store, account: nat)
    requires account in s.accounts
  {
    && account in t.accounts && t.accounts[account].source == s.accounts[account].source
    && Archived(t, account) == Archived(s, account) && MessageIds(t, account) == MessageIds(s, account)
    && Ingested(t, account) == Ingested(s, account)
  }

  lemma {:induction false} ForeignRow(s: Store, t: Store, account: nat, id: nat, row: Message)
    requires id !in s.messages && t.messages == s.messages[id := row] && row.account != account
    ensures Archived(t, account) == Archived(s, account) && MessageIds(t, account) == MessageIds(s, account)
  {
    forall e ensures MessagesNamed(t.messages, account, e) == MessagesNamed(s.messages, account, e) {}
    forall e ensures RowNamed(t, account, e) == RowNamed(s, account, e) {}
    forall e ensures e in Archived(t, account) <==> e in Archived(s, account)
      ensures e in Archived(t, account) ==> Archived(t, account)[e] == Archived(s, account)[e]
    {
      LookUp(s, account, e);
      LookUp(t, account, e);
    }
  }

  /** Only its own steps change an account's source or counter. */
  lemma {:induction false} ForeignKeepsAccount(x: Library, s: Store, step: Step, account: nat)
    requires account in s.accounts && Foreign(step, account)
    ensures var t := Exec(x, s, step);
            account in t.accounts && t.accounts[account].source == s.accounts[account].source
            && Ingested(t, account) == Ingested(s, account)
  {
    if step.Owner? && UpsertOwner(s, step.name, step.surname, step.ids).Ok? {
      UpsertOwnerCarries(s, step.name, step.surname, step.ids);
    }
    if step.Find? || step.Write? || step.Insert? {
      assert Exec(x, s, step).accounts == s.accounts && Exec(x, s, step).status == s.status;
    }
  }

  /** Only a save changes the messages, and by one row. */
  lemma {:induction false} OnlySavesAddRows(x: Library, s: Store, step: Step)
    requires WellFormed(step)
    ensures var t := Exec(x, s, step);
            t.messages == s.messages
            || (step.Insert? && step.m.account in s.accounts
                && t.messages
                   == s.messages[NextId(s.messages.Keys) := RowOf(s.accounts[step.m.account].source, step.m)])
  {
    if step.Owner? && UpsertOwner(s, step.name, step.surname, step.ids).Ok? {
      UpsertOwnerCarries(s, step.name, step.surname, step.ids);
    }
  }

  lemma {:induction false} ForeignStep(x: Library, s: Store, step: Step, account: nat)
    requires Valid(s) && account in s.accounts && Foreign(step, account)
    ensures Valid(Exec(x, s, step)) && Undisturbed(s, Exec(x, s, step), account)
  {
    var t := Exec(x, s, step);
    StepKeepsValid(x, s, step);
    ForeignKeepsAccount(x, s, step, account);
    OnlySavesAddRows(x, s, step);
    if t.messages == s.messages {
      SameArchive(s, t, account);
    } else {
      ForeignRow(s, t, account, NextId(s.messages.Keys), RowOf(s.accounts[step.m.account].source, step.m));
    }
  }

  /** What others write before each committed step of one save. */
  type Others = nat -> seq<Step>

  ghost predicate NoneOwn(others: Others, account: nat) {
    forall k: nat :: AllForeign(others(k), account)
  }

  /** `s` after what is written before the k-th step. */
  ghost function Then(x: Library, s: Store, account: nat, others: Others, k: nat): Store
    requires NoneOwn(others, account)
  {
    assert AllForeign(others(k), account);
    Run(x, s, others(k))
  }

  ghost function WritesAmid(x: Library, s: Store, account: nat, blobs: seq<Blob>, others: Others): Store
    requires NoneOwn(others, account)
    decreases |blobs|
  {
    if blobs == [] then s else
      var t := WritesAmid(x, s, account, blobs[..|blobs| - 1], others);
      WriteBlob(x, Then(x, t, account, others, |blobs| - 1), blobs[|blobs| - 1].content)
  }

  /** Looks up the contacts, the first of them as the `from`-th step of the save. */
  ghost function FindsAmid(x: Library, s: Store, account: nat, cs: seq<Contact>, from: nat, others: Others)
      : (r: (Store, seq<nat>))
    requires NoneOwn(others, account)
    ensures |r.1| == |cs|
    decreases |cs|
  {
    if cs == [] then (s, []) else
      var (t, ids) := FindsAmid(x, s, account, cs[..|cs| - 1], from, others);
      var (u, id) := FindOrCreate(Then(x, t, account, others, from + |cs| - 1), cs[|cs| - 1]);
      (u, ids + [id])
  }

  ghost function PeopleAmid(x: Library, s: Store, m: Incoming, others: Others): (r: (Store, seq<nat>))
    requires NoneOwn(others, m.account)
    ensures |r.1| == |m.parties|
  {
    FindsAmid(x, WritesAmid(x, s, m.account, m.blobs, others), m.account, Contacts(m.parties), |m.blobs|, others)
  }

  /** The database a save's transaction meets, and the people its lookups gave. */
  ghost function LookedUpAmid(x: Library, s: Store, m: Incoming, others: Others): (r: (Store, seq<nat>))
    requires NoneOwn(others, m.account)
    ensures |r.1| == |m.parties|
  {
    var r := PeopleAmid(x, s, m, others);
    (Then(x, r.0, m.account, others, |m.blobs| + |m.parties|), r.1)
  }

  /** A save with others writing before each of its committed steps: its files, its people, and its
      transaction with the ids the lookups gave. */
  ghost function SaveAmid(x: Library, s: Store, m: Incoming, others: Others): (Store, Outcome)
    requires NoneOwn(others, m.account)
  {
    var (t, pids) := LookedUpAmid(x, s, m, others);
    InsertMessage(x, t, m, pids)
  }

  /** `p` survives every step that is not the account's own. */
  ghost predicate KeptByOthers(x: Library, account: nat, p: Store -> bool) {
    forall s, step :: p(s) && Foreign(step, account) ==> p(Exec(x, s, step))
  }

  lemma {:induction false} RunKeeps(x: Library, s: Store, steps: seq<Step>, account: nat, p: Store -> bool)
    requires KeptByOthers(x, account, p) && p(s) && AllForeign(steps, account)
    ensures AllWellFormed(steps) && p(Run(x, s, steps))
    decreases |steps|
  {
    if steps != [] {
      RunKeeps(x, s, steps[..|steps| - 1], account, p);
      assert Foreign(steps[|steps| - 1], account);
    }
  }

  lemma {:induction false} ThenKeeps(x: Library, s: Store, account: nat, others: Others, k: nat, p: Store -> bool)
    requires KeptByOthers(x, account, p) && p(s) && NoneOwn(others, account)
    ensures p(Then(x, s, account, others, k))
  {
    assert AllForeign(others(k), account);
    RunKeeps(x, s, others(k), account, p);
  }

  lemma {:induction false} OwnStepKeeps(x: Library, s: Store, step: Step, account: nat, p: Store -> bool)
    requires KeptByOthers(x, account, p) && p(s) && (step.Write? || step.Find?)
    ensures p(Exec(x, s, step))
  {
    assert Foreign(step, account);
  }

  lemma {:induction false} WritesKeep(x: Library, s: Store, account: nat, blobs: seq<Blob>, others: Others,
                                      p: Store -> bool)
    requires KeptByOthers(x, account, p) && p(s) && NoneOwn(others, account)
    ensures p(WritesAmid(x, s, account, blobs, others))
    decreases |blobs|
  {
    if blobs != [] {
      var t := WritesAmid(x, s, account, blobs[..|blobs| - 1], others);
      WritesKeep(x, s, account, blobs[..|blobs| - 1], others, p);
      ThenKeeps(x, t, account, others, |blobs| - 1, p);
      OwnStepKeeps(x, Then(x, t, account, others, |blobs| - 1), Write(blobs[|blobs| - 1].content), account, p);
    }
  }

  lemma {:induction false} FindsKeep(x: Library, s: Store, account: nat, cs: seq<Contact>, from: nat, others: Others,
                                     p: Store -> bool)
    requires KeptByOthers(x, account, p) && p(s) && NoneOwn(others, account)
    ensures p(FindsAmid(x, s, account, cs, from, others).0)
    decreases |cs|
  {
    if cs != [] {
      var t := FindsAmid(x, s, account, cs[..|cs| - 1], from, others).0;
      FindsKeep(x, s, account, cs[..|cs| - 1], from, others, p);
      ThenKeeps(x, t, account, others, from + |cs| - 1, p);
      OwnStepKeeps(x, Then(x, t, account, others, from + |cs| - 1), Find(cs[|cs| - 1]), account, p);
    }
  }

  lemma {:induction false} PeopleKeep(x: Library, s: Store, m: Incoming, others: Others, p: Store -> bool)
    requires KeptByOthers(x, m.account, p) && p(s) && NoneOwn(others, m.account)
    ensures p(PeopleAmid(x, s, m, others).0)
  {
    WritesKeep(x, s, m.account, m.blobs, others, p);
    FindsKeep(x, WritesAmid(x, s, m.account, m.blobs, others), m.account, Contacts(m.parties), |m.blobs|, others, p);
  }

  /** So does it survive a save up to its transaction: its own files and people leave the account alone
      like the steps of others. */
  lemma {:induction false} LookedUpKeeps(x: Library, s: Store, m: Incoming, others: Others, p: Store -> bool)
    requires KeptByOthers(x, m.account, p) && p(s) && NoneOwn(others, m.account)
    ensures p(LookedUpAmid(x, s, m, others).0)
  {
    PeopleKeep(x, s, m, others, p);
    ThenKeeps(x, PeopleAmid(x, s, m, others).0, m.account, others, |m.blobs| + |m.parties|, p);
  }

  ghost function StaysAs(s: Store, account: nat): Store -> bool
    requires account in s.accounts
  {
    (t: Store) => Valid(t) && Undisturbed(s, t, account)
  }

  lemma {:induction false} UndisturbedThrough(s: Store, t: Store, u: Store, account: nat)
    requires account in s.accounts && Undisturbed(s, t, account) && Undisturbed(t, u, account)
    ensures Undisturbed(s, u, account)
  {
  }

  lemma {:induction false} OthersLeaveIt(x: Library, s: Store, account: nat)
    requires account in s.accounts
    ensures KeptByOthers(x, account, StaysAs(s, account))
  {
    forall t, step | StaysAs(s, account)(t) && Foreign(step, account)
      ensures StaysAs(s, account)(Exec(x, t, step))
    {
      ForeignStep(x, t, step, account);
      UndisturbedThrough(s, t, Exec(x, t, step), account);
    }
  }

  lemma {:induction false} ForeignRun(x: Library, s: Store, steps: seq<Step>, account: nat)
    requires Valid(s) && account in s.accounts && AllForeign(steps, account)
    ensures AllWellFormed(steps)
    ensures Valid(Run(x, s, steps)) && Undisturbed(s, Run(x, s, steps), account)
  {
    OthersLeaveIt(x, s, account);
    assert StaysAs(s, account)(s);
    RunKeeps(x, s, steps, account, StaysAs(s, account));
  }

  lemma {:induction false} LookedUpUndisturbed(x: Library, s: Store, m: Incoming, others: Others)
    requires Valid(s) && m.account in s.accounts && NoneOwn(others, m.account)
    ensures var t := LookedUpAmid(x, s, m, others).0; Valid(t) && Undisturbed(s, t, m.account)
  {
    OthersLeaveIt(x, s, m.account);
    assert StaysAs(s, m.account)(s);
    LookedUpKeeps(x, s, m, others, StaysAs(s, m.account));
  }

  lemma {:induction false} InsertRefusedIff(x: Library, s: Store, t: Store, m: Incoming, pids: seq<nat>)
    requires m.account in s.accounts && Undisturbed(s, t, m.account) && |pids| == |m.parties|
    ensures InsertMessage(x, t, m, pids).1.Refused?
       <==> m.externalId !in Archived(s, m.account) && exists k :: 0 <= k < |pids| && pids[k] !in t.people
  {
    KnownIsArchived(t, m.account, m.externalId);
  }

  /** Such a save is refused exactly when its message is new and a person it looked up has been merged
      away since. */
  lemma {:induction false} RefusedIffMergedAway(x: Library, s: Store, m: Incoming, others: Others)
    requires Valid(s) && m.account in s.accounts && NoneOwn(others, m.account)
    ensures var (t, pids) := LookedUpAmid(x, s, m, others);
            SaveAmid(x, s, m, others).1.Refused?
            <==> m.externalId !in Archived(s, m.account) && exists k :: 0 <= k < |pids| && pids[k] !in t.people
  {
    var (t, pids) := LookedUpAmid(x, s, m, others);
    LookedUpUndisturbed(x, s, m, others);
    InsertRefusedIff(x, s, t, m, pids);
  }

  /** It leaves the account as it was when it is refused, and otherwise is insert-if-absent. */
  lemma {:induction false} SaveAmidArchives(x: Library, s: Store, m: Incoming, others: Others)
    requires Valid(s) && m.account in s.accounts && OneFrom(m) && NoneOwn(others, m.account)
    ensures var (t, o) := SaveAmid(x, s, m, others);
            && Valid(t) && (o.Refused? ==> o.error == ForeignKey && Undisturbed(s, t, m.account))
            && (!o.Refused? ==> Adds(s, m, t, o))
  {
    var (t, pids) := LookedUpAmid(x, s, m, others);
    LookedUpUndisturbed(x, s, m, others);
    InsertKeepsValid(x, t, m, pids);
    InsertArchives(x, t, m, pids);
  }

  lemma {:induction false} OthersLead(x: Library, s: Store, account: nat, others: Others, k: nat)
    requires NoneOwn(others, account)
    ensures Leads(x, s, others(k), Then(x, s, account, others, k))
  {
    assert AllForeign(others(k), account);
  }

  /** The file writes of a save, each after what others write before it. */
  ghost function WritesHistory(blobs: seq<Blob>, others: Others): seq<Step>
    decreases |blobs|
  {
    if blobs == [] then [] else
      WritesHistory(blobs[..|blobs| - 1], others) + others(|blobs| - 1) + [Write(blobs[|blobs| - 1].content)]
  }

  ghost function FindsHistory(cs: seq<Contact>, from: nat, others: Others): seq<Step>
    decreases |cs|
  {
    if cs == [] then [] else
      FindsHistory(cs[..|cs| - 1], from, others) + others(from + |cs| - 1) + [Find(cs[|cs| - 1])]
  }

  lemma {:induction false} WritesLead(x: Library, s: Store, account: nat, blobs: seq<Blob>, others: Others)
    requires NoneOwn(others, account)
    ensures Leads(x, s, WritesHistory(blobs, others), WritesAmid(x, s, account, blobs, others))
    decreases |blobs|
  {
    if blobs != [] {
      var front, n := blobs[..|blobs| - 1], |blobs| - 1;
      var t, h := WritesAmid(x, s, account, front, others), WritesHistory(front, others);
      WritesLead(x, s, account, front, others);
      OthersLead(x, t, account, others, n);
      LeadsOn(x, s, h, t, others(n), Then(x, t, account, others, n));
      LeadsOneMore(x, s, h + others(n), Then(x, t, account, others, n), Write(blobs[n].content));
    }
  }

  lemma {:induction false} NextFindLeads(x: Library, s: Store, account: nat, h: seq<Step>, t: Store, others: Others,
                                         n: nat, c: Contact)
    requires NoneOwn(others, account) && Leads(x, s, h, t)
    ensures Leads(x, s, h + others(n) + [Find(c)], FindOrCreate(Then(x, t, account, others, n), c).0)
  {
    OthersLead(x, t, account, others, n);
    LeadsOn(x, s, h, t, others(n), Then(x, t, account, others, n));
    LeadsOneMore(x, s, h + others(n), Then(x, t, account, others, n), Find(c));
  }

  lemma {:induction false} NextFind(x: Library, s: Store, account: nat, cs: seq<Contact>, from: nat, others: Others)
    requires NoneOwn(others, account) && cs != []
    ensures var front, n, c := cs[..|cs| - 1], from + |cs| - 1, cs[|cs| - 1];
            && FindsAmid(x, s, account, cs, from, others).0
               == FindOrCreate(Then(x, FindsAmid(x, s, account, front, from, others).0, account, others, n), c).0
            && FindsHistory(cs, from, others) == FindsHistory(front, from, others) + others(n) + [Find(c)]
  {
  }

  lemma {:induction false} FindsLead(x: Library, s: Store, account: nat, cs: seq<Contact>, from: nat, others: Others)
    requires NoneOwn(others, account)
    ensures Leads(x, s, FindsHistory(cs, from, others), FindsAmid(x, s, account, cs, from, others).0)
    decreases |cs|
  {
    if cs != [] {
      var front := cs[..|cs| - 1];
      FindsLead(x, s, account, front, from, others);
      NextFindLeads(x, s, account, FindsHistory(front, from, others), FindsAmid(x, s, account, front, from, others).0,
                    others, from + |cs| - 1, cs[|cs| - 1]);
      NextFind(x, s, account, cs, from, others);
    }
  }

  /** All steps of a save and of the others, in the order they are committed. */
  ghost function AmidHistory(m: Incoming, pids: seq<nat>, others: Others): seq<Step> {
    WritesHistory(m.blobs, others) + FindsHistory(Contacts(m.parties), |m.blobs|, others)
    + others(|m.blobs| + |m.parties|) + [Insert(m, pids)]
  }

  lemma {:induction false} PeopleLead(x: Library, s: Store, m: Incoming, others: Others)
    requires NoneOwn(others, m.account)
    ensures Leads(x, s, WritesHistory(m.blobs, others) + FindsHistory(Contacts(m.parties), |m.blobs|, others),
                  PeopleAmid(x, s, m, others).0)
  {
    var cs, t := Contacts(m.parties), WritesAmid(x, s, m.account, m.blobs, others);
    WritesLead(x, s, m.account, m.blobs, others);
    FindsLead(x, t, m.account, cs, |m.blobs|, others);
    LeadsOn(x, s, WritesHistory(m.blobs, others), t, FindsHistory(cs, |m.blobs|, others),
            PeopleAmid(x, s, m, others).0);
  }

  /** Such a save is a history in which its steps and those of the others are interleaved, so what holds of all
      histories holds of it. */
  lemma {:induction false} SaveAmidIsHistory(x: Library, s: Store, m: Incoming, others: Others)
    requires OneFrom(m) && NoneOwn(others, m.account)
    ensures Leads(x, s, AmidHistory(m, LookedUpAmid(x, s, m, others).1, others), SaveAmid(x, s, m, others).0)
  {
    var h := WritesHistory(m.blobs, others) + FindsHistory(Contacts(m.parties), |m.blobs|, others);
    var n, t := |m.blobs| + |m.parties|, PeopleAmid(x, s, m, others).0;
    var (u, pids) := LookedUpAmid(x, s, m, others);
    PeopleLead(x, s, m, others);
    OthersLead(x, t, m.account, others, n);
    LeadsOn(x, s, h, t, others(n), u);
    LeadsOneMore(x, s, h + others(n), u, Insert(m, pids));
  }

  /** Others' writes during a loop of saves: those of the n-th save. */
  type Meanwhile = nat -> Others

  ghost predicate NeverOwn(amid: Meanwhile, account: nat) {
    forall n: nat :: NoneOwn(amid(n), account)
  }

  /** The sync loop with others writing before each committed step. */
  ghost function SaveEachAmid(x: Library, s: Store, account: nat, ms: seq<Incoming>, amid: Meanwhile): Tally
    requires NeverOwn(amid, account) && forall k :: 0 <= k < |ms| ==> ms[k].account == account
    decreases |ms|
  {
    if ms == [] then Tally(s, 0, 0, None) else
      var t := SaveEachAmid(x, s, account, ms[..|ms| - 1], amid);
      if t.error.Some? then t else
        assert NoneOwn(amid(|ms| - 1), account);
        var (u, o) := SaveAmid(x, t.store, ms[|ms| - 1], amid(|ms| - 1));
        Counted(t, u, o)
  }

  /** What such a loop has done: it took as many messages as it counted, all of them unless a save was
      refused, by a foreign key. */
  ghost predicate TookUntilRefused(s: Store, account: nat, ms: seq<Incoming>, t: Tally)
    requires account in s.accounts
  {
    var c := t.inserted + t.skipped;
    && c <= |ms| && Took(s, account, ms[..c], t)
    && (t.error.None? <==> c == |ms|) && (t.error.Some? ==> t.error == Some(ForeignKey))
  }

  lemma {:induction false} TookStill(s: Store, account: nat, ms: seq<Incoming>, t: Tally, u: Tally)
    requires account in s.accounts && Took(s, account, ms, t)
    requires Valid(u.store) && Undisturbed(t.store, u.store, account)
    requires u.inserted == t.inserted && u.skipped == t.skipped
    ensures Took(s, account, ms, u)
  {
  }

  lemma {:induction false} TookAll(s: Store, account: nat, ms: seq<Incoming>, t: Tally)
    requires account in s.accounts && Took(s, account, ms, t) && t.error.None?
    ensures TookUntilRefused(s, account, ms, t)
  {
    assert ms[..|ms|] == ms;
  }

  lemma {:induction false} TookThenRefused(s: Store, account: nat, front: seq<Incoming>, ms: seq<Incoming>, t: Tally)
    requires account in s.accounts && Took(s, account, front, t) && t.error == Some(ForeignKey)
    requires |front| < |ms| && front == ms[..|front|]
    ensures TookUntilRefused(s, account, ms, t)
  {
  }

  lemma {:induction false} AmidNextTakes(s: Store, account: nat, ms: seq<Incoming>, t: Tally, u: Store, o: Outcome)
    requires ForAccount(s, account, ms) && ms != [] && Took(s, account, ms[..|ms| - 1], t)
    requires Valid(u) && (o.Refused? ==> o.error == ForeignKey && Undisturbed(t.store, u, account))
    requires !o.Refused? ==> Adds(t.store, ms[|ms| - 1], u, o)
    ensures TookUntilRefused(s, account, ms, Counted(t, u, o))
  {
    if o.Refused? {
      TookStill(s, account, ms[..|ms| - 1], t, Counted(t, u, o));
      TookThenRefused(s, account, ms[..|ms| - 1], ms, Counted(t, u, o));
    } else {
      TookNext(s, account, ms, t, u, o);
      TookAll(s, account, ms, Counted(t, u, o));
    }
  }

  lemma {:induction false} StoppedEarlier(s: Store, account: nat, front: seq<Incoming>, ms: seq<Incoming>, t: Tally)
    requires account in s.accounts && |front| < |ms| && front == ms[..|front|]
    requires TookUntilRefused(s, account, front, t)
    ensures t.error.Some? ==> TookUntilRefused(s, account, ms, t)
    ensures t.error.None? ==> Took(s, account, front, t)
  {
    var c := t.inserted + t.skipped;
    assert front[..c] == ms[..c];
    if t.error.None? { assert front[..c] == front; }
  }

  lemma {:induction false} AmidNext(x: Library, s: Store, account: nat, ms: seq<Incoming>, t: Tally, others: Others)
    requires ForAccount(s, account, ms) && ms != [] && NoneOwn(others, account)
    requires Took(s, account, ms[..|ms| - 1], t)
    ensures var (u, o) := SaveAmid(x, t.store, ms[|ms| - 1], others);
            TookUntilRefused(s, account, ms, Counted(t, u, o))
  {
    SaveAmidArchives(x, t.store, ms[|ms| - 1], others);
    var (u, o) := SaveAmid(x, t.store, ms[|ms| - 1], others);
    AmidNextTakes(s, account, ms, t, u, o);
  }

  lemma {:induction false} AmidStep(x: Library, s: Store, account: nat, ms: seq<Incoming>, t: Tally, others: Others)
    requires ForAccount(s, account, ms) && ms != [] && NoneOwn(others, account)
    requires TookUntilRefused(s, account, ms[..|ms| - 1], t)
    ensures t.error.Some? ==> TookUntilRefused(s, account, ms, t)
    ensures t.error.None? ==> var (u, o) := SaveAmid(x, t.store, ms[|ms| - 1], others);
                              TookUntilRefused(s, account, ms, Counted(t, u, o))
  {
    StoppedEarlier(s, account, ms[..|ms| - 1], ms, t);
    if t.error.None? { AmidNext(x, s, account, ms, t, others); }
  }

  lemma {:induction false} NoneYet(s: Store, account: nat)
    requires Valid(s) && account in s.accounts
    ensures TookUntilRefused(s, account, [], Tally(s, 0, 0, None))
  {
    NothingTaken(s, account);
    var none: seq<Incoming> := [];
    assert none[..0] == none;
  }

  /** A run of saves, whatever others write before each of its steps: every message taken is counted as
      inserted or skipped, the archive takes each in order, and exactly the inserted ones are new rows. */
  lemma {:induction false} SaveEachArchives(x: Library, s: Store, account: nat, ms: seq<Incoming>, amid: Meanwhile)
    requires Valid(s) && ForAccount(s, account, ms) && NeverOwn(amid, account)
    ensures TookUntilRefused(s, account, ms, SaveEachAmid(x, s, account, ms, amid))
    decreases |ms|
  {
    if ms == [] {
      NoneYet(s, account);
    } else {
      SaveEachArchives(x, s, account, ms[..|ms| - 1], amid);
      assert NoneOwn(amid(|ms| - 1), account);
      AmidStep(x, s, account, ms, SaveEachAmid(x, s, account, ms[..|ms| - 1], amid), amid(|ms| - 1));
    }
  }

  /** Nobody else writes. */
  ghost function Quiet(): Meanwhile {
    (n: nat) => (k: nat) => []
  }

  lemma {:induction false} QuietIsForeign(account: nat)
    ensures NeverOwn(Quiet(), account)
  {
    forall n: nat ensures NoneOwn(Quiet()(n), account) {
      forall k: nat ensures AllForeign(Quiet()(n)(k), account) {
        assert Quiet()(n)(k) == [];
      }
    }
  }

  lemma {:induction false} WritesQuietly(x: Library, s: Store, account: nat, blobs: seq<Blob>, others: Others)
    requires NoneOwn(others, account) && forall k: nat :: k < |blobs| ==> others(k) == []
    ensures WritesAmid(x, s, account, blobs, others) == WriteBlobs(x, s, blobs)
    decreases |blobs|
  {
    if blobs != [] { WritesQuietly(x, s, account, blobs[..|blobs| - 1], others); }
  }

  lemma {:induction false} FindsQuietly(x: Library, s: Store, account: nat, cs: seq<Contact>, from: nat,
                                        others: Others)
    requires NoneOwn(others, account) && forall k: nat :: from <= k < from + |cs| ==> others(k) == []
    ensures FindsAmid(x, s, account, cs, from, others) == FindOrCreateAll(s, cs)
    decreases |cs|
  {
    if cs != [] { FindsQuietly(x, s, account, cs[..|cs| - 1], from, others); }
  }

  lemma {:induction false} PeopleQuietly(x: Library, s: Store, m: Incoming, others: Others)
    requires NoneOwn(others, m.account) && forall k: nat :: k < |m.blobs| + |m.parties| ==> others(k) == []
    ensures PeopleAmid(x, s, m, others) == FindOrCreateAll(WriteBlobs(x, s, m.blobs), Contacts(m.parties))
  {
    WritesQuietly(x, s, m.account, m.blobs, others);
    FindsQuietly(x, WriteBlobs(x, s, m.blobs), m.account, Contacts(m.parties), |m.blobs|, others);
  }

  lemma {:induction false} SaveQuietly(x: Library, s: Store, m: Incoming, others: Others)
    requires NoneOwn(others, m.account) && forall k: nat :: others(k) == []
    ensures SaveAmid(x, s, m, others) == SaveMessage(x, s, m)
  {
    PeopleQuietly(x, s, m, others);
  }

  lemma {:induction false} SaveEachQuietly(x: Library, s: Store, account: nat, ms: seq<Incoming>)
    requires forall k :: 0 <= k < |ms| ==> ms[k].account == account
    ensures NeverOwn(Quiet(), account)
    ensures SaveEachAmid(x, s, account, ms, Quiet()) == SaveEach(x, s, ms)
    decreases |ms|
  {
    QuietIsForeign(account);
    if ms != [] {
      var t := SaveEach(x, s, ms[..|ms| - 1]);
      SaveEachQuietly(x, s, account, ms[..|ms| - 1]);
      if t.error.None? {
        assert NoneOwn(Quiet()(|ms| - 1), account);
        SaveQuietly(x, t.store, ms[|ms| - 1], Quiet()(|ms| - 1));
      }
    }
  }

  /** One merge before the transaction of a save, and nothing else. */
  ghost function MergeBefore(m: Incoming, keep: nat, discard: nat): Others {
    (k: nat) => if k == |m.blobs| + |m.parties| then [Merge(keep, discard)] else []
  }

  lemma {:induction false} MergeBeforeIsForeign(m: Incoming, keep: nat, discard: nat)
    ensures NoneOwn(MergeBefore(m, keep, discard), m.account)
  {
    forall k: nat ensures AllForeign(MergeBefore(m, keep, discard)(k), m.account) {}
  }

  lemma {:induction false} GoneByThen(x: Library, s: Store, m: Incoming, keep: nat, discard: nat)
    requires NoneOwn(MergeBefore(m, keep, discard), m.account) && keep in s.people && keep != discard
    ensures discard !in Then(x, s, m.account, MergeBefore(m, keep, discard), |m.blobs| + |m.parties|).people
  {
    var steps := MergeBefore(m, keep, discard)(|m.blobs| + |m.parties|);
    assert steps[..0] == [];
    assert Run(x, s, steps) == Exec(x, s, Merge(keep, discard));
  }

  lemma {:induction false} OneGoneIsRefused(x: Library, s: Store, m: Incoming, others: Others, k: nat)
    requires Valid(s) && m.account in s.accounts && OneFrom(m) && NoneOwn(others, m.account)
    requires m.externalId !in Archived(s, m.account) && k < |m.parties|
    requires var (t, pids) := LookedUpAmid(x, s, m, others); pids[k] !in t.people
    ensures SaveAmid(x, s, m, others).1 == Refused(ForeignKey)
  {
    RefusedIffMergedAway(x, s, m, others);
    SaveAmidArchives(x, s, m, others);
  }

  lemma {:induction false} SenderIsGone(x: Library, s: Store, m: Incoming, u: Store, pids: seq<nat>, keep: nat)
    requires FindOrCreateAll(WriteBlobs(x, s, m.blobs), Contacts(m.parties)) == (u, pids) && m.parties != []
    requires keep in u.people && keep != pids[0]
    requires NoneOwn(MergeBefore(m, keep, pids[0]), m.account)
    ensures var r := LookedUpAmid(x, s, m, MergeBefore(m, keep, pids[0])); r.1[0] !in r.0.people
  {
    PeopleQuietly(x, s, m, MergeBefore(m, keep, pids[0]));
    GoneByThen(x, u, m, keep, pids[0]);
  }

  /** Such a refusal happens: the sender is merged onto somebody between lookup and transaction. */
  lemma {:induction false} MergedAwayIsRefused(x: Library, s: Store, m: Incoming, u: Store, pids: seq<nat>, keep: nat)
    requires Valid(s) && m.account in s.accounts && OneFrom(m) && m.externalId !in Archived(s, m.account)
    requires FindOrCreateAll(WriteBlobs(x, s, m.blobs), Contacts(m.parties)) == (u, pids)
    requires keep in u.people && keep != pids[0]
    ensures var others := MergeBefore(m, keep, pids[0]);
            NoneOwn(others, m.account) && SaveAmid(x, s, m, others).1 == Refused(ForeignKey)
  {
    MergeBeforeIsForeign(m, keep, pids[0]);
    SenderIsGone(x, s, m, u, pids, keep);
    OneGoneIsRefused(x, s, m, MergeBefore(m, keep, pids[0]), 0);
  }

  /** The same merge, and then a lookup of somebody unknown. */
  ghost function MergeAndFindBefore(m: Incoming, keep: nat, discard: nat, c: Contact): Others {
    (k: nat) => if k == |m.blobs| + |m.parties| then [Merge(keep, discard), Find(c)] else []
  }

  lemma {:induction false} MergeAndFindIsForeign(m: Incoming, keep: nat, discard: nat, c: Contact)
    ensures NoneOwn(MergeAndFindBefore(m, keep, discard, c), m.account)
  {
    forall k: nat ensures AllForeign(MergeAndFindBefore(m, keep, discard, c)(k), m.account) {}
  }

  lemma {:induction false} TwoSteps(x: Library, s: Store, a: Step, b: Step)
    requires WellFormed(a) && WellFormed(b)
    ensures AllWellFormed([a, b]) && Run(x, s, [a, b]) == Exec(x, Exec(x, s, a), b)
  {
    var none: seq<Step> := [];
    assert [a][..0] == none && Run(x, s, none) == s;
    assert AllWellFormed([a]) && Run(x, s, [a]) == Exec(x, s, a);
    assert [a, b][..1] == [a] && AllWellFormed([a, b]);
  }

  lemma {:induction false} FreedIsNext(used: set<nat>, id: nat)
    requires id !in used && id - 1 in used && forall p :: p in used ==> p <= id
    ensures NextId(used) == id
  {
  }

  lemma {:induction false} FreedByMerge(s: Store, keep: nat, discard: nat)
    requires keep in s.people && discard in s.people && keep != discard
    requires discard - 1 in s.people && forall p :: p in s.people ==> p <= discard
    ensures var r := MergePeople(s, keep, discard);
            && r.Ok? && r.value.people == s.people - {discard} && NextId(r.value.people.Keys) == discard
            && r.value == s.(people := r.value.people, identifiers := r.value.identifiers,
                             accounts := r.value.accounts, roles := r.value.roles)
            && r.value.accounts.Keys == s.accounts.Keys && r.value.identifiers.Keys == s.identifiers.Keys
            && (forall i :: i in s.identifiers && s.identifiers[i] == discard ==> r.value.identifiers[i] == keep)
  {
    MergePeopleIs(s, keep, discard);
    assert map[discard := keep].Keys == {discard};
    FreedIsNext((s.people - {discard}).Keys, discard);
  }

  /** The freed id goes to the next new person. */
  lemma {:induction false} IdIsUsedAgain(s: Store, keep: nat, discard: nat, c: Contact, q: Store)
    requires keep in s.people && discard in s.people && keep != discard && c.ident !in s.identifiers
    requires discard - 1 in s.people && forall p :: p in s.people ==> p <= discard
    requires MergePeople(s, keep, discard) == Ok(q)
    ensures var t := FindOrCreate(q, c).0;
            && t.people.Keys == s.people.Keys && t.messages == s.messages && t.accounts.Keys == s.accounts.Keys
            && ResolvesTo(t, c.ident, discard)
            && (forall i :: i in s.identifiers && s.identifiers[i] == discard ==> ResolvesTo(t, i, keep))
  {
    FreedByMerge(s, keep, discard);
  }

  lemma {:induction false} ThenReplaces(x: Library, u: Store, m: Incoming, keep: nat, discard: nat, c: Contact)
    requires keep in u.people && keep != discard && NoneOwn(MergeAndFindBefore(m, keep, discard, c), m.account)
    ensures MergePeople(u, keep, discard).Ok?
    ensures Then(x, u, m.account, MergeAndFindBefore(m, keep, discard, c), |m.blobs| + |m.parties|)
         == FindOrCreate(MergePeople(u, keep, discard).value, c).0
  {
    TwoSteps(x, u, Merge(keep, discard), Find(c));
  }

  lemma {:induction false} ReplacedByThen(x: Library, s: Store, m: Incoming, u: Store, pids: seq<nat>, keep: nat,
                                          c: Contact)
    requires FindOrCreateAll(WriteBlobs(x, s, m.blobs), Contacts(m.parties)) == (u, pids) && m.parties != []
    requires Valid(u) && keep in u.people && pids[0] in u.people && keep != pids[0]
    requires NoneOwn(MergeAndFindBefore(m, keep, pids[0], c), m.account)
    ensures MergePeople(u, keep, pids[0]).Ok?
    ensures LookedUpAmid(x, s, m, MergeAndFindBefore(m, keep, pids[0], c))
         == (FindOrCreate(MergePeople(u, keep, pids[0]).value, c).0, pids)
  {
    PeopleQuietly(x, s, m, MergeAndFindBefore(m, keep, pids[0], c));
    ThenReplaces(x, u, m, keep, pids[0], c);
  }

  lemma {:induction false} StrangerIsSender(x: Library, t: Store, m: Incoming, pids: seq<nat>)
    requires m.account in t.accounts && OneFrom(m) && |pids| == |m.parties|
    requires MessagesNamed(t.messages, m.account, m.externalId) == {}
    requires forall k :: 0 <= k < |pids| ==> pids[k] in t.people
    ensures var (v, o) := InsertMessage(x, t, m, pids);
            o.Inserted? && IsSender(v, o.id, pids[0]) && v.identifiers == t.identifiers && v.people == t.people
  {
    var (v, o) := InsertMessage(x, t, m, pids);
    assert RoleRow(o.id, pids[0], m.parties[0].role) in RoleRows(o.id, pids, m.parties);
  }

  lemma {:induction false} LookupsKeepRows(x: Library, s: Store, m: Incoming, u: Store, pids: seq<nat>)
    requires Valid(s) && FindOrCreateAll(WriteBlobs(x, s, m.blobs), Contacts(m.parties)) == (u, pids)
    ensures Valid(u) && u.messages == s.messages && u.accounts == s.accounts
    ensures forall k :: 0 <= k < |pids| ==> ResolvesTo(u, m.parties[k].contact.ident, pids[k])
  {
    ContactsResolve(x, s, m);
    BlobsThere(x, s, m.blobs);
    ContactsThere(WriteBlobs(x, s, m.blobs), Contacts(m.parties));
  }

  /** `id` is the last row id in use, and the one before is in use too. */
  ghost predicate IsLastId(s: Store, id: nat) {
    id in s.people && id - 1 in s.people && forall p :: p in s.people ==> p <= id
  }

  /** Worse, when the id of the sender merged away is given to somebody new before the transaction, the save
      goes through and the stranger is the message's sender. */
  lemma {:induction false} StrangerIsStored(x: Library, s: Store, m: Incoming, u: Store, pids: seq<nat>, keep: nat,
                                            c: Contact, others: Others) returns (t: Store, o: Outcome)
    requires Valid(s) && m.account in s.accounts && OneFrom(m) && m.externalId !in Archived(s, m.account)
    requires FindOrCreateAll(WriteBlobs(x, s, m.blobs), Contacts(m.parties)) == (u, pids)
    requires keep in u.people && keep != pids[0] && c.ident !in u.identifiers && IsLastId(u, pids[0])
    requires others == MergeAndFindBefore(m, keep, pids[0], c)
    ensures NoneOwn(others, m.account) && SaveAmid(x, s, m, others) == (t, o)
    ensures o.Inserted? && IsSender(t, o.id, pids[0])
    ensures ResolvesTo(t, c.ident, pids[0]) && ResolvesTo(t, m.parties[0].contact.ident, keep)
  {
    MergeAndFindIsForeign(m, keep, pids[0], c);
    LookupsKeepRows(x, s, m, u, pids);
    ReplacedByThen(x, s, m, u, pids, keep, c);
    KnownIsArchived(s, m.account, m.externalId);
    t, o := StrangerInserted(x, m, u, pids, keep, c, FindOrCreate(MergePeople(u, keep, pids[0]).value, c).0);
  }

  lemma {:induction false} StrangerInserted(x: Library, m: Incoming, u: Store, pids: seq<nat>, keep: nat, c: Contact,
                                            v: Store) returns (t: Store, o: Outcome)
    requires |pids| == |m.parties| && OneFrom(m) && m.account in u.accounts
    requires MessagesNamed(u.messages, m.account, m.externalId) == {}
    requires forall k :: 0 <= k < |pids| ==> ResolvesTo(u, m.parties[k].contact.ident, pids[k])
    requires keep in u.people && keep != pids[0] && c.ident !in u.identifiers && IsLastId(u, pids[0])
    requires MergePeople(u, keep, pids[0]).Ok? && v == FindOrCreate(MergePeople(u, keep, pids[0]).value, c).0
    ensures InsertMessage(x, v, m, pids) == (t, o)
    ensures o.Inserted? && IsSender(t, o.id, pids[0])
    ensures ResolvesTo(t, c.ident, pids[0]) && ResolvesTo(t, m.parties[0].contact.ident, keep)
  {
    IdIsUsedAgain(u, keep, pids[0], c, MergePeople(u, keep, pids[0]).value);
    assert ResolvesTo(u, m.parties[0].contact.ident, pids[0]);
    forall k | 0 <= k < |pids| ensures pids[k] in v.people {
      assert ResolvesTo(u, m.parties[k].contact.ident, pids[k]);
    }
    StrangerIsSender(x, v, m, pids);
    t, o := InsertMessage(x, v, m, pids).0, InsertMessage(x, v, m, pids).1;
  }

  /** The sender of message `id` holds the identifier. */
  ghost predicate SenderHolds(t: Store, id: nat, i: Ident) {
    forall q :: IsSender(t, id, q) ==> ResolvesTo(t, i, q)
  }

  /** With anybody writing before any step, a message that is stored is from the person who holds its sender's
      identifier if and only if that is still the person looked up when the transaction begins. */
  lemma {:induction false} SenderIsRightIff(x: Library, s: Store, m: Incoming, others: Others)
    requires Valid(s) && m.account in s.accounts && OneFrom(m) && NoneOwn(others, m.account)
    requires SaveAmid(x, s, m, others).1.Inserted?
    ensures var (u, pids) := LookedUpAmid(x, s, m, others);
            var (t, o) := SaveAmid(x, s, m, others);
            SenderHolds(t, o.id, m.parties[0].contact.ident) <==> ResolvesTo(u, m.parties[0].contact.ident, pids[0])
  {
    var (u, pids) := LookedUpAmid(x, s, m, others);
    LookedUpUndisturbed(x, s, m, others);
    InsertedSender(x, u, m, pids);
    var (t, o) := InsertMessage(x, u, m, pids);
    HoldsIffLookedUp(u, t, o.id, m.parties[0].contact.ident, pids[0]);
  }

  lemma {:induction false} HoldsIffLookedUp(u: Store, t: Store, id: nat, i: Ident, p: nat)
    requires t.identifiers == u.identifiers && t.people == u.people && forall q :: IsSender(t, id, q) <==> q == p
    ensures SenderHolds(t, id, i) <==> ResolvesTo(u, i, p)
  {
    assert IsSender(t, id, p);
  }

  lemma {:induction false} InsertedSender(x: Library, u: Store, m: Incoming, pids: seq<nat>)
    requires Valid(u) && OneFrom(m) && |pids| == |m.parties| && InsertMessage(x, u, m, pids).1.Inserted?
    ensures var (t, o) := InsertMessage(x, u, m, pids);
            && t.identifiers == u.identifiers && t.people == u.people
            && (forall q :: IsSender(t, o.id, q) <==> q == pids[0])
  {
    var (t, o) := InsertMessage(x, u, m, pids);
    NewRowsOneSender(x, u, m, pids);
    assert RoleRow(o.id, pids[0], m.parties[0].role) in RoleRows(o.id, pids, m.parties);
    assert IsSender(t, o.id, pids[0]);
  }

  // ---------------------------------------------------------------- counting over runs

  /** How a sync attempt ended: it recorded success, it raised and recorded the failure, or the
      process was cut off before recording anything. */
  datatype Ending = Completed | Raised(error: string) | CutOff

  /** One attempt that got through the messages `ms` and then ended that way. */
  datatype Attempt = Attempt(ms: seq<Incoming>, ending: Ending)

  /** A refused save raises, so the attempt cannot complete. */
  function EndingOf(error: Option<Failure>, ending: Ending): Ending {
    if error.Some? && ending.Completed? then Raised(ExceptionName(error.value)) else ending
  }

  /** The exception behind a refusal, without its message. */
  function ExceptionName(e: Failure): string {
    match e
    case SelfMerge => "ValueError"
    case UnknownAccount => "OperationalError"
    case UnknownOwner => "UsageError"
    case ForeignKey => "IntegrityError"
    case UniqueKey => "IntegrityError"
  }

  /** What an attempt leaves once it has ended. */
  function Recorded(t: Tally, account: nat, ending: Ending): Store {
    match EndingOf(t.error, ending)
    case Completed => RecordSuccess(t.store, account, t.inserted)
    case Raised(e) => RecordFailure(t.store, account, e)
    case CutOff => t.store
  }

  /** One attempt with nobody else writing. */
  ghost function AfterAttempt(x: Library, s: Store, account: nat, a: Attempt): Store {
    Recorded(SaveEach(x, s, a.ms), account, a.ending)
  }

  /** An attempt, what others write before it, and what they write before each of its steps. Steps of
      an earlier save that was cut off count among those before it. */
  datatype SharedAttempt = SharedAttempt(before: seq<Step>, amid: Meanwhile, attempt: Attempt)

  ghost predicate WellShared(s: Store, account: nat, a: SharedAttempt) {
    OwnAttempt(account, a) && ForAccount(s, account, a.attempt.ms)
  }

  /** The account's own writes in it are those of the attempt. */
  ghost predicate OwnAttempt(account: nat, a: SharedAttempt) {
    && AllForeign(a.before, account) && NeverOwn(a.amid, account)
    && forall k :: 0 <= k < |a.attempt.ms| ==> a.attempt.ms[k].account == account
  }

  ghost function SharedTally(x: Library, s: Store, account: nat, a: SharedAttempt): Tally
    requires OwnAttempt(account, a)
  {
    SaveEachAmid(x, Run(x, s, a.before), account, a.attempt.ms, a.amid)
  }

  /** The attempt got to its end and no save was refused. */
  ghost predicate Succeeds(t: Tally, ending: Ending) {
    t.error.None? && ending.Completed?
  }

  ghost predicate OwnAttempts(account: nat, attempts: seq<SharedAttempt>) {
    forall k :: 0 <= k < |attempts| ==> OwnAttempt(account, attempts[k])
  }

  ghost function AfterAttempts(x: Library, s: Store, account: nat, attempts: seq<SharedAttempt>): Store
    requires OwnAttempts(account, attempts)
    decreases |attempts|
  {
    if attempts == [] then s else
      var a := attempts[|attempts| - 1];
      var u := AfterAttempts(x, s, account, attempts[..|attempts| - 1]);
      Recorded(SharedTally(x, u, account, a), account, a.attempt.ending)
  }

  /** Rows inserted by attempts that did not complete. */
  ghost function Unreported(x: Library, s: Store, account: nat, attempts: seq<SharedAttempt>): nat
    requires OwnAttempts(account, attempts)
    decreases |attempts|
  {
    if attempts == [] then 0 else
      var front, last := attempts[..|attempts| - 1], attempts[|attempts| - 1];
      var t := SharedTally(x, AfterAttempts(x, s, account, front), account, last);
      Unreported(x, s, account, front) + if Succeeds(t, last.attempt.ending) then 0 else t.inserted
  }

  ghost predicate AllComplete(x: Library, s: Store, account: nat, attempts: seq<SharedAttempt>)
    requires OwnAttempts(account, attempts)
    decreases |attempts|
  {
    attempts != [] ==>
      var front, last := attempts[..|attempts| - 1], attempts[|attempts| - 1];
      AllComplete(x, s, account, front)
      && Succeeds(SharedTally(x, AfterAttempts(x, s, account, front), account, last), last.attempt.ending)
  }

  lemma {:induction false} RecordKeeps(t: Tally, account: nat, ending: Ending)
    requires Valid(t.store) && account in t.store.accounts
    ensures var u := Recorded(t, account, ending);
            && Valid(u) && u.accounts == t.store.accounts
            && MessageIds(u, account) == MessageIds(t.store, account)
            && Ingested(u, account)
               == Ingested(t.store, account) + if Succeeds(t, ending) then t.inserted else 0
  {
    match EndingOf(t.error, ending)
    case Completed => StatusKeepsValid(t.store, account, RecordSuccess(t.store, account, t.inserted).status[account]);
    case Raised(e) => StatusKeepsValid(t.store, account, RecordFailure(t.store, account, e).status[account]);
    case CutOff =>
  }

  lemma {:induction false} AttemptCounts(x: Library, s: Store, account: nat, a: SharedAttempt)
    requires Valid(s) && WellShared(s, account, a)
    ensures var t := SharedTally(x, s, account, a);
            var u := Recorded(t, account, a.attempt.ending);
            && Valid(u) && account in u.accounts
            && |MessageIds(u, account)| == |MessageIds(s, account)| + t.inserted
            && Ingested(u, account) == Ingested(s, account) + if Succeeds(t, a.attempt.ending) then t.inserted else 0
  {
    ForeignRun(x, s, a.before, account);
    SaveEachArchives(x, Run(x, s, a.before), account, a.attempt.ms, a.amid);
    RecordKeeps(SharedTally(x, s, account, a), account, a.attempt.ending);
  }

  /** The account's rows have grown as the counter and the unreported insertions say. */
  ghost predicate Conserved(s: Store, t: Store, account: nat, unreported: nat) {
    && Valid(t) && account in t.accounts
    && |MessageIds(t, account)| - |MessageIds(s, account)| == Ingested(t, account) - Ingested(s, account) + unreported
  }

  lemma {:induction false} AttemptConserves(x: Library, s: Store, t: Store, account: nat, unreported: nat,
                                            a: SharedAttempt)
    requires Conserved(s, t, account, unreported) && WellShared(t, account, a)
    ensures var tally := SharedTally(x, t, account, a);
            Conserved(s, Recorded(tally, account, a.attempt.ending), account,
                      unreported + if Succeeds(tally, a.attempt.ending) then 0 else tally.inserted)
  {
    AttemptCounts(x, t, account, a);
  }

  /** Conservation, whatever others write before any step: an account's rows are the reported ones plus
      those of attempts that failed, were refused or were cut off; when all complete they equal
      `messages_ingested`. */
  lemma {:induction false} CountsAreConserved(x: Library, s: Store, account: nat, attempts: seq<SharedAttempt>)
    requires Valid(s) && account in s.accounts
    requires forall k :: 0 <= k < |attempts| ==> WellShared(s, account, attempts[k])
    ensures OwnAttempts(account, attempts)
    ensures Conserved(s, AfterAttempts(x, s, account, attempts), account, Unreported(x, s, account, attempts))
    ensures AllComplete(x, s, account, attempts) ==> Unreported(x, s, account, attempts) == 0
    decreases |attempts|
  {
    if attempts != [] {
      var front, last := attempts[..|attempts| - 1], attempts[|attempts| - 1];
      CountsAreConserved(x, s, account, front);
      assert WellShared(s, account, attempts[|attempts| - 1]);
      AttemptConserves(x, s, AfterAttempts(x, s, account, front), account, Unreported(x, s, account, front), last);
    }
  }

  // ---------------------------------------------------------------- the error of the last attempt

  /** The recorded error of the account, if it has a status at all. */
  ghost function ErrorOf(s: Store, account: nat): Option<string> {
    if account in s.status then s.status[account].lastError else None
  }

  lemma {:induction false} AttemptRecords(t: Tally, account: nat, ending: Ending)
    requires account in t.store.accounts
    ensures var u := Recorded(t, account, ending);
            && (ending.CutOff? ==> ErrorOf(u, account) == ErrorOf(t.store, account))
            && (Succeeds(t, ending) ==> ErrorOf(u, account) == None)
            && (ending.Raised? ==> ErrorOf(u, account) == Some(ending.error))
            && (ending.Completed? && t.error.Some? ==> ErrorOf(u, account).Some?)
  {
  }

  /** Attempts one after the other, with nobody else writing. */
  ghost function AfterEach(x: Library, s: Store, account: nat, attempts: seq<Attempt>): Store
    decreases |attempts|
  {
    if attempts == [] then s else
      AfterAttempt(x, AfterEach(x, s, account, attempts[..|attempts| - 1]), account, attempts[|attempts| - 1])
  }

  ghost predicate AllFor(s: Store, account: nat, attempts: seq<Attempt>) {
    forall k :: 0 <= k < |attempts| ==> ForAccount(s, account, attempts[k].ms)
  }

  lemma {:induction false} AttemptAlone(x: Library, s: Store, account: nat, a: Attempt)
    requires Valid(s) && ForAccount(s, account, a.ms)
    ensures Valid(AfterAttempt(x, s, account, a)) && account in AfterAttempt(x, s, account, a).accounts
    ensures SaveEach(x, s, a.ms).error.None? && account in SaveEach(x, s, a.ms).store.accounts
  {
    SaveEachAlone(x, s, account, a.ms);
    RecordKeeps(SaveEach(x, s, a.ms), account, a.ending);
  }

  lemma {:induction false} EachIsValid(x: Library, s: Store, account: nat, attempts: seq<Attempt>)
    requires Valid(s) && account in s.accounts && AllFor(s, account, attempts)
    ensures Valid(AfterEach(x, s, account, attempts)) && account in AfterEach(x, s, account, attempts).accounts
    decreases |attempts|
  {
    if attempts != [] {
      EachIsValid(x, s, account, attempts[..|attempts| - 1]);
      AttemptAlone(x, AfterEach(x, s, account, attempts[..|attempts| - 1]), account, attempts[|attempts| - 1]);
    }
  }

  lemma {:induction false} SavingLeavesStatus(x: Library, s: Store, account: nat, ms: seq<Incoming>)
    requires Valid(s) && ForAccount(s, account, ms)
    ensures SaveEach(x, s, ms).store.status == s.status
    decreases |ms|
  {
    if ms != [] {
      var t := SaveEach(x, s, ms[..|ms| - 1]);
      SavingLeavesStatus(x, s, account, ms[..|ms| - 1]);
      SaveEachAlone(x, s, account, ms[..|ms| - 1]);
      SaveArchives(x, t.store, ms[|ms| - 1]);
    }
  }

  lemma {:induction false} OneDecides(x: Library, s: Store, account: nat, a: Attempt)
    requires Valid(s) && ForAccount(s, account, a.ms)
    ensures ErrorOf(AfterAttempt(x, s, account, a), account)
         == match a.ending case Completed => None case Raised(e) => Some(e) case CutOff => ErrorOf(s, account)
  {
    AttemptAlone(x, s, account, a);
    SavingLeavesStatus(x, s, account, a.ms);
    AttemptRecords(SaveEach(x, s, a.ms), account, a.ending);
  }

  lemma {:induction false} StillAllFor(x: Library, s: Store, account: nat, attempts: seq<Attempt>)
    requires Valid(s) && account in s.accounts && AllFor(s, account, attempts) && attempts != []
    ensures var u := AfterEach(x, s, account, attempts[..|attempts| - 1]);
            Valid(u) && ForAccount(u, account, attempts[|attempts| - 1].ms)
  {
    EachIsValid(x, s, account, attempts[..|attempts| - 1]);
    assert ForAccount(s, account, attempts[|attempts| - 1].ms);
  }

  lemma {:induction false} LastDecides(x: Library, s: Store, account: nat, attempts: seq<Attempt>)
    requires Valid(s) && account in s.accounts && AllFor(s, account, attempts) && attempts != []
    ensures var front, a := attempts[..|attempts| - 1], attempts[|attempts| - 1];
            AllFor(s, account, front)
            && ErrorOf(AfterEach(x, s, account, attempts), account)
               == match a.ending case Completed => None case Raised(e) => Some(e)
                                 case CutOff => ErrorOf(AfterEach(x, s, account, front), account)
  {
    StillAllFor(x, s, account, attempts);
    OneDecides(x, AfterEach(x, s, account, attempts[..|attempts| - 1]), account, attempts[|attempts| - 1]);
  }

  /** Of attempts one after the other the last that was not cut off decides: no error when it completed, and
      otherwise the one it raised. */
  lemma {:induction false} LastAttemptDecides(x: Library, s: Store, account: nat, attempts: seq<Attempt>, k: nat)
    requires Valid(s) && account in s.accounts && AllFor(s, account, attempts)
    requires k < |attempts| && !attempts[k].ending.CutOff?
    requires forall j :: k < j < |attempts| ==> attempts[j].ending.CutOff?
    ensures ErrorOf(AfterEach(x, s, account, attempts), account)
         == if attempts[k].ending.Completed? then None else Some(attempts[k].ending.error)
    decreases |attempts|
  {
    LastDecides(x, s, account, attempts);
    if k < |attempts| - 1 { LastAttemptDecides(x, s, account, attempts[..|attempts| - 1], k); }
  }
}
