/** `accountpilot setup` (core/cli/setup_cmd.py): applying the configured owners and accounts.
    The command documents itself as idempotent; this module proves exactly when it is. */
module Setup {
  import opened Prelude
  import opened Schema
  import opened Identity
  import opened Owners

  datatype OwnerEntry = OwnerEntry(name: string, surname: Option<string>, identifiers: seq<RawIdent>)

  datatype AccountEntry = AccountEntry(identifier: string, owner: string, provider: Option<string>,
                                       credentialsRef: Option<string>)

  datatype PluginEntry = PluginEntry(name: string, enabled: bool, accounts: seq<AccountEntry>)

  datatype Config = Config(owners: seq<OwnerEntry>, plugins: seq<PluginEntry>)

  /** How far a run has come: the tables, the `owner_id_by_identifier` dictionary, and what stopped it. */
  datatype Progress = Progress(store: Store, ownerIds: map<string, nat>, error: Option<Failure>)

  function OwnerIdents(x: Library, o: OwnerEntry): (ids: seq<Ident>)
    ensures |ids| == |o.identifiers|
  {
    Idents(x, o.identifiers)
  }

  function OwnerKeys(x: Library, o: OwnerEntry): set<string> {
    set r | r in o.identifiers :: x.lower(r.value)
  }

  function Learned(keys: set<string>, id: nat): map<string, nat> {
    map k | k in keys :: id
  }

  function ApplyOwner(x: Library, p: Progress, o: OwnerEntry): Progress {
    match UpsertOwner(p.store, o.name, o.surname, OwnerIdents(x, o))
    case Err(e) => p.(error := Some(e))
    case Ok((t, id)) => Progress(t, p.ownerIds + Learned(OwnerKeys(x, o), id), None)
  }

  /** What one entry does, read off the entry: the owner upsert of its values, and the dictionary gives the
      owner under each of them in lower case. */
  ghost predicate EntryApplied(x: Library, p: Progress, o: OwnerEntry, q: Progress, id: nat) {
    && q.error.None? && OwnerIs(x, p.store, o.identifiers, q.store, id, Person(o.name, o.surname, true))
    && (forall k :: k in q.ownerIds <==> k in p.ownerIds || Lists(x, o, k))
    && (forall k :: k in q.ownerIds ==> q.ownerIds[k] == if Lists(x, o, k) then id else p.ownerIds[k])
  }

  ghost predicate Lists(x: Library, o: OwnerEntry, key: string) {
    exists r :: r in o.identifiers && x.lower(r.value) == key
  }

  lemma {:induction false} LearnsListed(x: Library, before: map<string, nat>, o: OwnerEntry, id: nat)
    ensures var after := before + Learned(OwnerKeys(x, o), id);
            && (forall k :: k in after <==> k in before || Lists(x, o, k))
            && (forall k :: k in after ==> after[k] == if Lists(x, o, k) then id else before[k])
  {
    forall k ensures k in OwnerKeys(x, o) <==> Lists(x, o, k) {}
  }

  lemma {:induction false} EntryAppliedFrom(x: Library, p: Progress, o: OwnerEntry, t: Store, id: nat)
    requires OwnerIs(x, p.store, o.identifiers, t, id, Person(o.name, o.surname, true))
    ensures EntryApplied(x, p, o, Progress(t, p.ownerIds + Learned(OwnerKeys(x, o), id), None), id)
  {
    LearnsListed(x, p.ownerIds, o, id);
  }

  /** One owner entry, for any tables and dictionary: it fails exactly when its values repeat and nobody
      holds any of them, and otherwise is applied. */
  lemma {:induction false} ApplyOwnerIs(x: Library, p: Progress, o: OwnerEntry) returns (id: nat)
    requires ForeignKeys(p.store)
    ensures Fails(x, p.store, o.identifiers) ==> ApplyOwner(x, p, o) == p.(error := Some(UniqueKey))
    ensures !Fails(x, p.store, o.identifiers) ==> EntryApplied(x, p, o, ApplyOwner(x, p, o), id)
  {
    id := 0;
    UpsertFailsIff(x, p.store, o.name, o.surname, o.identifiers);
    if !Fails(x, p.store, o.identifiers) {
      var t: Store;
      t, id := UpsertOwner(p.store, o.name, o.surname, OwnerIdents(x, o)).value.0,
               UpsertOwner(p.store, o.name, o.surname, OwnerIdents(x, o)).value.1;
      UpsertOwnerIs(x, p.store, o.name, o.surname, o.identifiers, t, id);
      EntryAppliedFrom(x, p, o, t, id);
    }
  }

  /** The owners loop; it stops at the first failure. */
  function ApplyOwners(x: Library, s: Store, owners: seq<OwnerEntry>): Progress
    decreases |owners|
  {
    if owners == [] then Progress(s, map[], None) else
      var p := ApplyOwners(x, s, owners[..|owners| - 1]);
      if p.error.Some? then p else ApplyOwner(x, p, owners[|owners| - 1])
  }

  function AccountRow(plugin: string, a: AccountEntry, owner: nat): Account {
    Account(owner, if a.provider.Some? then a.provider.value else plugin, a.identifier, a.credentialsRef)
  }

  function ApplyAccount(x: Library, p: Progress, plugin: string, a: AccountEntry): Progress {
    if x.lower(a.owner) !in p.ownerIds then p.(error := Some(UnknownOwner)) else
      match UpsertAccount(p.store, AccountRow(plugin, a, p.ownerIds[x.lower(a.owner)]))
      case Err(e) => p.(error := Some(e))
      case Ok((t, _)) => p.(store := t)
  }

  function ApplyAccounts(x: Library, p: Progress, plugin: string, accounts: seq<AccountEntry>): Progress
    decreases |accounts|
  {
    if accounts == [] then p else
      var q := ApplyAccounts(x, p, plugin, accounts[..|accounts| - 1]);
      if q.error.Some? then q else ApplyAccount(x, q, plugin, accounts[|accounts| - 1])
  }

  function ApplyPlugins(x: Library, p: Progress, plugins: seq<PluginEntry>): Progress
    decreases |plugins|
  {
    if plugins == [] then p else
      var q, g := ApplyPlugins(x, p, plugins[..|plugins| - 1]), plugins[|plugins| - 1];
      if q.error.Some? || !g.enabled then q else ApplyAccounts(x, q, g.name, g.accounts)
  }

  /** The whole command: owners first, then the accounts of the enabled plugins. */
  function Apply(x: Library, s: Store, cfg: Config): Progress {
    var p := ApplyOwners(x, s, cfg.owners);
    if p.error.Some? then p else ApplyPlugins(x, p, cfg.plugins)
  }

  /** A loop that has failed stays where it failed. */
  lemma {:induction false} StopsAt(x: Library, s: Store, owners: seq<OwnerEntry>, k: nat)
    requires k <= |owners| && ApplyOwners(x, s, owners[..k]).error.Some?
    ensures ApplyOwners(x, s, owners) == ApplyOwners(x, s, owners[..k])
    decreases |owners|
  {
    if k < |owners| {
      assert owners[..|owners| - 1][..k] == owners[..k];
      StopsAt(x, s, owners[..|owners| - 1], k);
    } else {
      assert owners[..k] == owners;
    }
  }

  lemma {:induction false} AccountsStopAt(x: Library, p: Progress, plugin: string, accounts: seq<AccountEntry>, k: nat)
    requires k <= |accounts| && ApplyAccounts(x, p, plugin, accounts[..k]).error.Some?
    ensures ApplyAccounts(x, p, plugin, accounts) == ApplyAccounts(x, p, plugin, accounts[..k])
    decreases |accounts|
  {
    if k < |accounts| {
      assert accounts[..|accounts| - 1][..k] == accounts[..k];
      AccountsStopAt(x, p, plugin, accounts[..|accounts| - 1], k);
    } else {
      assert accounts[..k] == accounts;
    }
  }

  lemma {:induction false} AccountsStep(x: Library, p: Progress, plugin: string, accounts: seq<AccountEntry>, k: nat)
    requires k < |accounts| && ApplyAccounts(x, p, plugin, accounts[..k]).error.None?
    ensures ApplyAccounts(x, p, plugin, accounts[..k + 1])
         == ApplyAccount(x, ApplyAccounts(x, p, plugin, accounts[..k]), plugin, accounts[k])
  {
    assert accounts[..k + 1][..k] == accounts[..k];
  }

  lemma {:induction false} PluginsStopAt(x: Library, p: Progress, plugins: seq<PluginEntry>, k: nat)
    requires k <= |plugins| && ApplyPlugins(x, p, plugins[..k]).error.Some?
    ensures ApplyPlugins(x, p, plugins) == ApplyPlugins(x, p, plugins[..k])
    decreases |plugins|
  {
    if k < |plugins| {
      assert plugins[..|plugins| - 1][..k] == plugins[..k];
      PluginsStopAt(x, p, plugins[..|plugins| - 1], k);
    } else {
      assert plugins[..k] == plugins;
    }
  }

  // ---------------------------------------------------------------- what a run leaves behind

  ghost function First(x: Library, o: OwnerEntry): (i: Ident)
    requires o.identifiers != []
    ensures i in OwnerIdents(x, o)
  {
    OwnerIdents(x, o)[0]
  }

  /** The person an owner entry stands for, read off its first identifier. */
  ghost function ClassOf(x: Library, s: Store, o: OwnerEntry): nat
    requires o.identifiers != [] && First(x, o) in s.identifiers
  {
    s.identifiers[First(x, o)]
  }

  ghost predicate IsOwner(x: Library, s: Store, o: OwnerEntry) {
    forall i, j :: i in OwnerIdents(x, o) && j in OwnerIdents(x, o) ==> SamePerson(s, i, j)
  }

  /** Each entry's identifiers resolve to one person. */
  ghost predicate Together(x: Library, s: Store, owners: seq<OwnerEntry>) {
    forall k :: 0 <= k < |owners| ==> IsOwner(x, s, owners[k])
  }

  /** Entry `k` stands for person `p`. */
  ghost predicate StandsFor(x: Library, s: Store, o: OwnerEntry, p: nat) {
    o.identifiers != [] && First(x, o) in s.identifiers && ClassOf(x, s, o) == p
  }

  /** Entry `k` is the last one standing for person `p`. */
  ghost predicate LastFor(x: Library, s: Store, owners: seq<OwnerEntry>, k: nat, p: nat) {
    && k < |owners|
    && StandsFor(x, s, owners[k], p)
    && (forall j :: k < j < |owners| ==> !StandsFor(x, s, owners[j], p))
  }

  ghost predicate NamedBy(x: Library, s: Store, owners: seq<OwnerEntry>, k: nat, p: nat, row: Person) {
    LastFor(x, s, owners, k, p) && row == Person(owners[k].name, owners[k].surname, true)
  }

  /** Every person carries the name of the last entry that stands for them. */
  ghost predicate NamedByLast(x: Library, s: Store, owners: seq<OwnerEntry>) {
    forall k: nat, p :: LastFor(x, s, owners, k, p) ==>
      p in s.people && s.people[p] == Person(owners[k].name, owners[k].surname, true)
  }

  lemma {:induction false} OwnersRunIsValid(x: Library, s: Store, owners: seq<OwnerEntry>)
    requires Valid(s)
    ensures Valid(ApplyOwners(x, s, owners).store)
    decreases |owners|
  {
    if owners != [] {
      OwnersRunIsValid(x, s, owners[..|owners| - 1]);
      var p, o := ApplyOwners(x, s, owners[..|owners| - 1]), owners[|owners| - 1];
      if UpsertOwner(p.store, o.name, o.surname, OwnerIdents(x, o)).Ok? {
        UpsertOwnerKeepsValid(p.store, o.name, o.surname, OwnerIdents(x, o));
      }
    }
  }

  lemma {:induction false} OwnersRunKeepsRefs(x: Library, s: Store, owners: seq<OwnerEntry>)
    requires ForeignKeys(s)
    ensures ForeignKeys(ApplyOwners(x, s, owners).store)
    decreases |owners|
  {
    if owners != [] {
      OwnersRunKeepsRefs(x, s, owners[..|owners| - 1]);
      var p, o := ApplyOwners(x, s, owners[..|owners| - 1]), owners[|owners| - 1];
      if UpsertOwner(p.store, o.name, o.surname, OwnerIdents(x, o)).Ok? {
        UpsertOwnerKeepsRefs(p.store, o.name, o.surname, OwnerIdents(x, o));
      }
    }
  }

  /** Later upserts never separate identifiers that are already one person. */
  lemma {:induction false} UpsertKeepsPair(x: Library, s: Store, o: OwnerEntry, i: Ident, j: Ident)
    requires ForeignKeys(s)
    requires UpsertOwner(s, o.name, o.surname, OwnerIdents(x, o)).Ok?
    requires SamePerson(s, i, j) || (i in OwnerIdents(x, o) && j in OwnerIdents(x, o))
    ensures SamePerson(UpsertOwner(s, o.name, o.surname, OwnerIdents(x, o)).value.0, i, j)
  {
    var ids := OwnerIdents(x, o);
    UpsertedIdent(s, o.name, o.surname, ids, i);
    UpsertedIdent(s, o.name, o.surname, ids, j);
    if SamePerson(s, i, j) {
      assert i in ids ==> Holds(s, ids, s.identifiers[i]);
      assert j in ids ==> Holds(s, ids, s.identifiers[j]);
    }
  }

  /** The owner entry `o` takes the tables `s` to `t` and stands for person `id`. */
  ghost predicate Applies(x: Library, s: Store, o: OwnerEntry, t: Store, id: nat) {
    UpsertOwner(s, o.name, o.surname, OwnerIdents(x, o)) == Ok((t, id))
  }

  lemma {:induction false} UpsertKeepsTogether(x: Library, s: Store, owners: seq<OwnerEntry>, t: Store, id: nat)
    requires owners != []
    requires ForeignKeys(s) && Together(x, s, owners[..|owners| - 1])
    requires Applies(x, s, owners[|owners| - 1], t, id)
    ensures Together(x, t, owners)
  {
    var front, o := owners[..|owners| - 1], owners[|owners| - 1];
    forall k | 0 <= k < |owners| ensures IsOwner(x, t, owners[k]) {
      var e := owners[k];
      forall i, j | i in OwnerIdents(x, e) && j in OwnerIdents(x, e) ensures SamePerson(t, i, j) {
        if k < |front| { assert IsOwner(x, s, front[k]); }
        UpsertKeepsPair(x, s, o, i, j);
      }
    }
  }

  lemma {:induction false} LastOwnerStep(x: Library, s: Store, owners: seq<OwnerEntry>) returns (u: Store, t: Store,
                                         id: nat)
    requires ForeignKeys(s)
    requires owners != [] && ApplyOwners(x, s, owners).error.None?
    ensures ApplyOwners(x, s, owners[..|owners| - 1]).error.None?
    ensures u == ApplyOwners(x, s, owners[..|owners| - 1]).store && ForeignKeys(u)
    ensures t == ApplyOwners(x, s, owners).store
    ensures Applies(x, u, owners[|owners| - 1], t, id)
  {
    var p, o := ApplyOwners(x, s, owners[..|owners| - 1]), owners[|owners| - 1];
    u := p.store;
    var done := UpsertOwner(u, o.name, o.surname, OwnerIdents(x, o)).value;
    t, id := done.0, done.1;
    OwnersRunKeepsRefs(x, s, owners[..|owners| - 1]);
  }

  lemma {:induction false} OwnersEndTogether(x: Library, s: Store, owners: seq<OwnerEntry>)
    requires ForeignKeys(s)
    requires ApplyOwners(x, s, owners).error.None?
    ensures Together(x, ApplyOwners(x, s, owners).store, owners)
    decreases |owners|
  {
    if owners != [] {
      var u, t, id := LastOwnerStep(x, s, owners);
      OwnersEndTogether(x, s, owners[..|owners| - 1]);
      UpsertKeepsTogether(x, u, owners, t, id);
    }
  }

  /** An entry without identifiers always adds a person. */
  lemma {:induction false} UpsertNameless(x: Library, s: Store, o: OwnerEntry)
    requires o.identifiers == []
    ensures var id := NextId(s.people.Keys);
            UpsertOwner(s, o.name, o.surname, OwnerIdents(x, o))
            == Ok((s.(people := s.people[id := Person(o.name, o.surname, true)]), id))
  {
    assert OwnerIdents(x, o) == [];
    assert Attach(s.identifiers, [], NextId(s.people.Keys)) == s.identifiers;
  }

  /** What one entry does to who stands for whom, and to people's rows. */
  ghost predicate Settles(x: Library, s: Store, o: OwnerEntry, t: Store, id: nat) {
    && (forall e, q :: IsOwner(x, s, e) && StandsFor(x, t, e, q) && q != id ==> StandsFor(x, s, e, q))
    && (forall e, q :: IsOwner(x, s, e) && StandsFor(x, s, e, q) && q != id && q in t.people ==> StandsFor(x, t, e, q))
    && (forall e :: StandsFor(x, t, e, id) ==> StandsFor(x, t, o, id))
    && (o.identifiers != [] ==> StandsFor(x, t, o, id))
    && (forall e, q :: StandsFor(x, t, e, q) ==> q in t.people)
    && id in t.people && t.people[id] == Person(o.name, o.surname, true)
    && (forall q :: q in t.people && q != id ==> q in s.people && t.people[q] == s.people[q])
  }

  ghost predicate StandsAfter(x: Library, s: Store, o: OwnerEntry, t: Store, id: nat, e: OwnerEntry, q: nat) {
    && (IsOwner(x, s, e) && q != id && StandsFor(x, t, e, q) ==> StandsFor(x, s, e, q))
    && (IsOwner(x, s, e) && q != id && StandsFor(x, s, e, q) && q in t.people ==> StandsFor(x, t, e, q))
    && (StandsFor(x, t, e, id) ==> o.identifiers != [])
  }

  lemma {:induction false} StandingAfter(x: Library, s: Store, o: OwnerEntry, t: Store, id: nat, e: OwnerEntry, q: nat)
    requires ForeignKeys(s) && Applies(x, s, o, t, id)
    ensures StandsAfter(x, s, o, t, id, e, q)
  {
    var ids := OwnerIdents(x, o);
    UpsertOwnerCarries(s, o.name, o.surname, ids);
    if e.identifiers != [] {
      UpsertedIdent(s, o.name, o.surname, ids, First(x, e));
      assert IsOwner(x, s, e) ==> SamePerson(s, First(x, e), First(x, e));
    }
    if o.identifiers == [] {
      UpsertNameless(x, s, o);
    }
  }

  lemma {:induction false} EntryStands(x: Library, s: Store, o: OwnerEntry, t: Store, id: nat)
    requires ForeignKeys(s) && Applies(x, s, o, t, id) && o.identifiers != []
    ensures StandsFor(x, t, o, id)
  {
    UpsertedIdent(s, o.name, o.surname, OwnerIdents(x, o), First(x, o));
  }

  lemma {:induction false} UpsertSettles(x: Library, s: Store, o: OwnerEntry, t: Store, id: nat)
    requires ForeignKeys(s) && Applies(x, s, o, t, id)
    ensures Settles(x, s, o, t, id)
  {
    if o.identifiers != [] { EntryStands(x, s, o, t, id); }
    UpsertOwnerCarries(s, o.name, o.surname, OwnerIdents(x, o));
    UpsertOwnerKeepsRefs(s, o.name, o.surname, OwnerIdents(x, o));
    forall e, q ensures StandsAfter(x, s, o, t, id, e, q) {
      StandingAfter(x, s, o, t, id, e, q);
    }
    SettlesFrom(x, s, o, t, id);
  }

  lemma {:induction false} SettlesFrom(x: Library, s: Store, o: OwnerEntry, t: Store, id: nat)
    requires forall e, q :: StandsAfter(x, s, o, t, id, e, q)
    requires o.identifiers != [] ==> StandsFor(x, t, o, id)
    requires forall i :: i in t.identifiers ==> t.identifiers[i] in t.people
    requires id in t.people && t.people[id] == Person(o.name, o.surname, true)
    requires forall q :: q in t.people && q != id ==> q in s.people && t.people[q] == s.people[q]
    ensures Settles(x, s, o, t, id)
  {
    forall e, q ensures IsOwner(x, s, e) && StandsFor(x, t, e, q) && q != id ==> StandsFor(x, s, e, q)
      ensures IsOwner(x, s, e) && StandsFor(x, s, e, q) && q != id && q in t.people ==> StandsFor(x, t, e, q)
      ensures StandsFor(x, t, e, id) ==> StandsFor(x, t, o, id)
    {
      assert StandsAfter(x, s, o, t, id, e, q);
    }
  }

  lemma {:induction false} OwnersEndNamed(x: Library, s: Store, owners: seq<OwnerEntry>)
    requires ForeignKeys(s)
    requires ApplyOwners(x, s, owners).error.None?
    ensures NamedByLast(x, ApplyOwners(x, s, owners).store, owners)
    decreases |owners|
  {
    if owners != [] {
      var front, o := owners[..|owners| - 1], owners[|owners| - 1];
      var u, t, id := LastOwnerStep(x, s, owners);
      OwnersEndTogether(x, s, front);
      OwnersEndNamed(x, s, front);
      UpsertSettles(x, u, o, t, id);
      NamesFollow(x, u, owners, t, id);
    }
  }

  lemma {:induction false} NamesFollow(x: Library, s: Store, owners: seq<OwnerEntry>, t: Store, id: nat)
    requires owners != []
    requires Together(x, s, owners[..|owners| - 1]) && NamedByLast(x, s, owners[..|owners| - 1])
    requires Settles(x, s, owners[|owners| - 1], t, id)
    ensures NamedByLast(x, t, owners)
  {
    var front, o := owners[..|owners| - 1], owners[|owners| - 1];
    assert owners == front + [o];
    forall k: nat, q | LastFor(x, t, owners, k, q)
      ensures q in t.people && t.people[q] == Person(owners[k].name, owners[k].surname, true)
    {
      if q == id {
        assert k == |front|;
      } else if k < |front| {
        assert IsOwner(x, s, front[k]);
        forall j | k < j < |front| ensures !StandsFor(x, s, front[j], q) {
          assert IsOwner(x, s, front[j]) && !StandsFor(x, t, owners[j], q);
        }
        assert LastFor(x, s, front, k, q);
      }
    }
  }

  // ---------------------------------------------------------------- running it again

  lemma {:induction false} MatchesOne(x: Library, s: Store, o: OwnerEntry)
    requires IsOwner(x, s, o) && o.identifiers != []
    ensures First(x, o) in s.identifiers
    ensures Matched(s.identifiers, OwnerIdents(x, o)) == [ClassOf(x, s, o)]
  {
    assert SamePerson(s, First(x, o), First(x, o));
    var p := ClassOf(x, s, o);
    var m := Matched(s.identifiers, OwnerIdents(x, o));
    assert p in m;
    forall i | i in OwnerIdents(x, o) ensures s.identifiers[i] == p {
      assert SamePerson(s, i, First(x, o));
    }
    assert Elements(m) == {p};
    assert m[0] in m;
  }

  /** An owner entry whose identifiers are already one person only renames that person. */
  lemma {:induction false} UpsertAgain(x: Library, s: Store, o: OwnerEntry)
    requires IsOwner(x, s, o) && o.identifiers != []
    ensures First(x, o) in s.identifiers
    ensures var p := ClassOf(x, s, o);
            UpsertOwner(s, o.name, o.surname, OwnerIdents(x, o))
            == Ok((s.(people := s.people[p := Person(o.name, o.surname, true)]), p))
  {
    MatchesOne(x, s, o);
    var ids, p := OwnerIdents(x, o), ClassOf(x, s, o);
    assert Collapse([p][1..], p) == map[];
    MoveNobody(s);
    forall i | i in ids ensures i in s.identifiers {
      assert SamePerson(s, i, i);
    }
    assert Attach(s.identifiers, ids, p) == s.identifiers;
  }

  lemma {:induction false} SameClass(x: Library, s: Store, t: Store, o: OwnerEntry)
    requires t.identifiers == s.identifiers && IsOwner(x, s, o)
    ensures IsOwner(x, t, o)
  {
    forall i, j | i in OwnerIdents(x, o) && j in OwnerIdents(x, o) ensures SamePerson(t, i, j) {
      assert SamePerson(s, i, j);
    }
  }

  ghost predicate AllListed(owners: seq<OwnerEntry>) {
    forall k :: 0 <= k < |owners| ==> owners[k].identifiers != []
  }

  /** The second pass over the owners changes only `people`, and adds a row just when an entry lists
      no identifiers. */
  lemma {:induction false} OwnersAgain(x: Library, s: Store, owners: seq<OwnerEntry>)
    requires Together(x, s, owners)
    requires forall i :: i in s.identifiers ==> s.identifiers[i] in s.people
    ensures var p := ApplyOwners(x, s, owners);
            && p.error.None?
            && p.store == s.(people := p.store.people)
            && s.people.Keys <= p.store.people.Keys
            && (AllListed(owners) <==> p.store.people.Keys == s.people.Keys)
    decreases |owners|
  {
    if owners != [] {
      var front, o := owners[..|owners| - 1], owners[|owners| - 1];
      assert owners == front + [o];
      OwnersAgain(x, s, front);
      var p := ApplyOwners(x, s, front);
      if o.identifiers == [] {
        UpsertNameless(x, p.store, o);
      } else {
        SameClass(x, s, p.store, o);
        UpsertAgain(x, p.store, o);
      }
    }
  }

  /** One more entry of the second pass renames the person it stands for and nobody else. */
  lemma {:induction false} AgainRenames(x: Library, s: Store, p: Progress, o: OwnerEntry, q: nat)
    requires p.error.None? && p.store.identifiers == s.identifiers && IsOwner(x, s, o)
    requires q in s.people && q in p.store.people
    ensures var r := ApplyOwner(x, p, o);
            && q in r.store.people
            && r.store.people[q] == if StandsFor(x, s, o, q) then Person(o.name, o.surname, true) else p.store.people[q]
  {
    if o.identifiers == [] {
      UpsertNameless(x, p.store, o);
    } else {
      SameClass(x, s, p.store, o);
      UpsertAgain(x, p.store, o);
    }
  }

  /** In the second pass a person ends up named by the last entry standing for them, or as before. */
  lemma {:induction false} OwnersAgainNames(x: Library, s: Store, owners: seq<OwnerEntry>, q: nat)
    requires Together(x, s, owners) && q in s.people
    requires forall i :: i in s.identifiers ==> s.identifiers[i] in s.people
    ensures var people := ApplyOwners(x, s, owners).store.people;
            q in people
            && (people[q] == s.people[q] || exists k: nat :: NamedBy(x, s, owners, k, q, people[q]))
    decreases |owners|
  {
    if owners != [] {
      var front, o := owners[..|owners| - 1], owners[|owners| - 1];
      assert owners == front + [o];
      OwnersAgainNames(x, s, front, q);
      OwnersAgain(x, s, front);
      var p := ApplyOwners(x, s, front);
      AgainRenames(x, s, p, o, q);
      if StandsFor(x, s, o, q) {
        assert NamedBy(x, s, owners, |front|, q, Person(o.name, o.surname, true));
      } else if k: nat :| NamedBy(x, s, front, k, q, p.store.people[q]) {
        assert NamedBy(x, s, owners, k, q, p.store.people[q]);
      }
    }
  }

  // ---------------------------------------------------------------- the accounts loops

  /** The row is of the entry's provider, or else its plugin, and of its identifier. */
  predicate IsOf(plugin: string, a: AccountEntry, row: Account) {
    row.source == (if a.provider.Some? then a.provider.value else plugin) && row.identifier == a.identifier
  }

  /** The account an entry declares exists already. */
  ghost predicate Declared(x: Library, p: Progress, plugin: string, a: AccountEntry) {
    x.lower(a.owner) in p.ownerIds && exists id :: id in p.store.accounts && IsOf(plugin, a, p.store.accounts[id])
  }

  lemma {:induction false} DeclaredIsNamed(x: Library, p: Progress, plugin: string, a: AccountEntry, owner: nat)
    requires x.lower(a.owner) in p.ownerIds
    ensures var row := AccountRow(plugin, a, owner);
            Declared(x, p, plugin, a) <==> AccountsNamed(p.store.accounts, row.source, row.identifier) != {}
  {
    var row := AccountRow(plugin, a, owner);
    if id :| id in p.store.accounts && IsOf(plugin, a, p.store.accounts[id]) {
      assert id in AccountsNamed(p.store.accounts, row.source, row.identifier);
    }
    if id :| id in AccountsNamed(p.store.accounts, row.source, row.identifier) {
      assert IsOf(plugin, a, p.store.accounts[id]);
    }
  }

  ghost predicate AllDeclared(x: Library, p: Progress, plugin: string, accounts: seq<AccountEntry>) {
    forall k :: 0 <= k < |accounts| ==> Declared(x, p, plugin, accounts[k])
  }

  ghost predicate PluginsDeclared(x: Library, p: Progress, plugins: seq<PluginEntry>) {
    forall k :: 0 <= k < |plugins| && plugins[k].enabled ==> AllDeclared(x, p, plugins[k].name, plugins[k].accounts)
  }

  /** Accounts are only added: `q` comes from `p` by inserting rows into `accounts`. */
  ghost predicate OnlyNewAccounts(p: Progress, q: Progress) {
    && q == p.(store := p.store.(accounts := q.store.accounts), error := q.error)
    && (forall a :: a in p.store.accounts ==> a in q.store.accounts && q.store.accounts[a] == p.store.accounts[a])
  }

  lemma {:induction false} StaysDeclared(x: Library, p: Progress, q: Progress, plugin: string, a: AccountEntry)
    requires OnlyNewAccounts(p, q) && Declared(x, p, plugin, a)
    ensures Declared(x, q, plugin, a)
  {
    var id :| id in p.store.accounts && IsOf(plugin, a, p.store.accounts[id]);
    assert IsOf(plugin, a, q.store.accounts[id]);
  }

  lemma {:induction false} AccountDeclares(x: Library, p: Progress, plugin: string, a: AccountEntry)
    ensures var q := ApplyAccount(x, p, plugin, a);
            && OnlyNewAccounts(p, q)
            && (p.error.None? && q.error.None? ==> Declared(x, q, plugin, a))
            && (p.error.None? && Declared(x, p, plugin, a) ==> q == p)
  {
    var q := ApplyAccount(x, p, plugin, a);
    if x.lower(a.owner) in p.ownerIds {
      var row := AccountRow(plugin, a, p.ownerIds[x.lower(a.owner)]);
      DeclaredIsNamed(x, p, plugin, a, row.owner);
      if AccountsNamed(p.store.accounts, row.source, row.identifier) == {} && row.owner in p.store.people {
        assert IsOf(plugin, a, q.store.accounts[NextId(p.store.accounts.Keys)]);
      }
    }
  }

  lemma {:induction false} AccountsDeclare(x: Library, p: Progress, plugin: string, accounts: seq<AccountEntry>)
    requires p.error.None?
    ensures var q := ApplyAccounts(x, p, plugin, accounts);
            && OnlyNewAccounts(p, q)
            && (q.error.None? ==> AllDeclared(x, q, plugin, accounts))
            && (AllDeclared(x, p, plugin, accounts) ==> q == p)
    decreases |accounts|
  {
    if accounts != [] {
      var front, a := accounts[..|accounts| - 1], accounts[|accounts| - 1];
      assert accounts == front + [a];
      AccountsDeclare(x, p, plugin, front);
      var q := ApplyAccounts(x, p, plugin, front);
      if q.error.None? {
        AccountDeclares(x, q, plugin, a);
        var r := ApplyAccount(x, q, plugin, a);
        forall k | 0 <= k < |front| ensures Declared(x, r, plugin, accounts[k]) {
          StaysDeclared(x, q, r, plugin, front[k]);
        }
      }
    }
  }

  lemma {:induction false} PluginsDeclare(x: Library, p: Progress, plugins: seq<PluginEntry>)
    requires p.error.None?
    ensures var q := ApplyPlugins(x, p, plugins);
            && OnlyNewAccounts(p, q)
            && (q.error.None? ==> PluginsDeclared(x, q, plugins))
            && (PluginsDeclared(x, p, plugins) ==> q == p)
    decreases |plugins|
  {
    if plugins != [] {
      var front, g := plugins[..|plugins| - 1], plugins[|plugins| - 1];
      assert plugins == front + [g];
      PluginsDeclare(x, p, front);
      var q := ApplyPlugins(x, p, front);
      if q.error.None? && g.enabled {
        AccountsDeclare(x, q, g.name, g.accounts);
        var r := ApplyAccounts(x, q, g.name, g.accounts);
        forall k | 0 <= k < |front| && plugins[k].enabled
          ensures AllDeclared(x, r, plugins[k].name, plugins[k].accounts)
        {
          forall j | 0 <= j < |front[k].accounts| ensures Declared(x, r, front[k].name, front[k].accounts[j]) {
            StaysDeclared(x, q, r, front[k].name, front[k].accounts[j]);
          }
        }
      }
    }
  }

  /** The dictionary's keys depend on the configuration only. */
  lemma {:induction false} DictionaryKeys(x: Library, s: Store, t: Store, owners: seq<OwnerEntry>)
    requires ApplyOwners(x, s, owners).error.None? && ApplyOwners(x, t, owners).error.None?
    ensures ApplyOwners(x, s, owners).ownerIds.Keys == ApplyOwners(x, t, owners).ownerIds.Keys
    decreases |owners|
  {
    if owners != [] {
      DictionaryKeys(x, s, t, owners[..|owners| - 1]);
    }
  }

  // ---------------------------------------------------------------- idempotence

  /** The owners loop of the second run ends with the people of the first. */
  lemma {:induction false} NamesSettle(x: Library, t: Store, owners: seq<OwnerEntry>)
    requires Together(x, t, owners) && NamedByLast(x, t, owners) && AllListed(owners)
    requires forall i :: i in t.identifiers ==> t.identifiers[i] in t.people
    ensures ApplyOwners(x, t, owners).store == t
  {
    OwnersAgain(x, t, owners);
    var people := ApplyOwners(x, t, owners).store.people;
    forall i | i in t.people ensures people[i] == t.people[i] {
      OwnersAgainNames(x, t, owners, i);
    }
    assert people == t.people;
  }

  lemma {:induction false} FirstRunLeaves(x: Library, s: Store, cfg: Config)
    requires Valid(s)
    requires Apply(x, s, cfg).error.None?
    ensures var q := Apply(x, s, cfg);
            && Valid(q.store)
            && Together(x, q.store, cfg.owners) && NamedByLast(x, q.store, cfg.owners)
            && PluginsDeclared(x, q, cfg.plugins)
            && ApplyOwners(x, s, cfg.owners).error.None?
            && q.ownerIds == ApplyOwners(x, s, cfg.owners).ownerIds
  {
    var p := ApplyOwners(x, s, cfg.owners);
    OwnersRunIsValid(x, s, cfg.owners);
    OwnersEndTogether(x, s, cfg.owners);
    OwnersEndNamed(x, s, cfg.owners);
    PluginsDeclare(x, p, cfg.plugins);
    PluginsKeepValid(x, p, cfg.plugins);
    SameStanding(x, p.store, ApplyPlugins(x, p, cfg.plugins).store, cfg.owners);
  }

  /** After one successful run, a second run always succeeds; and it leaves every table as it is
      if and only if each owner entry lists at least one identifier. */
  lemma {:induction false} SetupIsIdempotent(x: Library, s: Store, cfg: Config)
    requires Valid(s)
    requires Apply(x, s, cfg).error.None?
    ensures var t := Apply(x, s, cfg).store;
            && Valid(t)
            && Apply(x, t, cfg).error.None?
            && (Apply(x, t, cfg).store == t <==> AllListed(cfg.owners))
  {
    FirstRunLeaves(x, s, cfg);
    var q := Apply(x, s, cfg);
    var t := q.store;
    OwnersAgain(x, t, cfg.owners);
    var p := ApplyOwners(x, t, cfg.owners);
    DictionaryKeys(x, s, t, cfg.owners);
    DeclaredAgain(x, q, p, cfg.plugins);
    PluginsDeclare(x, p, cfg.plugins);
    assert Apply(x, t, cfg) == p;
    if AllListed(cfg.owners) {
      NamesSettle(x, t, cfg.owners);
    }
  }

  lemma {:induction false} SameStanding(x: Library, s: Store, t: Store, owners: seq<OwnerEntry>)
    requires t.identifiers == s.identifiers && t.people == s.people
    requires Together(x, s, owners) && NamedByLast(x, s, owners)
    ensures Together(x, t, owners) && NamedByLast(x, t, owners)
  {
    forall k | 0 <= k < |owners| ensures IsOwner(x, t, owners[k]) {
      SameClass(x, s, t, owners[k]);
    }
    assert forall k, q :: 0 <= k < |owners| ==> (StandsFor(x, t, owners[k], q) <==> StandsFor(x, s, owners[k], q));
    assert forall k: nat, q :: LastFor(x, t, owners, k, q) ==> LastFor(x, s, owners, k, q);
  }

  lemma {:induction false} DeclaredAgain(x: Library, q: Progress, p: Progress, plugins: seq<PluginEntry>)
    requires PluginsDeclared(x, q, plugins)
    requires p.ownerIds.Keys == q.ownerIds.Keys && p.store.accounts == q.store.accounts
    ensures PluginsDeclared(x, p, plugins)
  {
    forall k, j | 0 <= k < |plugins| && plugins[k].enabled && 0 <= j < |plugins[k].accounts|
      ensures Declared(x, p, plugins[k].name, plugins[k].accounts[j])
    {
      assert AllDeclared(x, q, plugins[k].name, plugins[k].accounts);
      assert Declared(x, q, plugins[k].name, plugins[k].accounts[j]);
    }
  }

  lemma {:induction false} AccountKeepsValid(x: Library, p: Progress, plugin: string, a: AccountEntry)
    requires Valid(p.store)
    ensures Valid(ApplyAccount(x, p, plugin, a).store)
  {
    if x.lower(a.owner) in p.ownerIds {
      var row := AccountRow(plugin, a, p.ownerIds[x.lower(a.owner)]);
      if UpsertAccount(p.store, row).Ok? {
        UpsertAccountKeepsValid(p.store, row);
      }
    }
  }

  lemma {:induction false} AccountsKeepValid(x: Library, p: Progress, plugin: string, accounts: seq<AccountEntry>)
    requires Valid(p.store)
    ensures Valid(ApplyAccounts(x, p, plugin, accounts).store)
    decreases |accounts|
  {
    if accounts != [] {
      AccountsKeepValid(x, p, plugin, accounts[..|accounts| - 1]);
      AccountKeepsValid(x, ApplyAccounts(x, p, plugin, accounts[..|accounts| - 1]), plugin, accounts[|accounts| - 1]);
    }
  }

  lemma {:induction false} PluginsKeepValid(x: Library, p: Progress, plugins: seq<PluginEntry>)
    requires Valid(p.store)
    ensures Valid(ApplyPlugins(x, p, plugins).store)
    decreases |plugins|
  {
    if plugins != [] {
      var q, g := ApplyPlugins(x, p, plugins[..|plugins| - 1]), plugins[|plugins| - 1];
      PluginsKeepValid(x, p, plugins[..|plugins| - 1]);
      AccountsKeepValid(x, q, g.name, g.accounts);
    }
  }
}
