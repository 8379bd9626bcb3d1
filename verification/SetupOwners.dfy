/** Which person an account of the configuration goes to. `setup` remembers a person id per owner
    identifier, but a later owner entry may merge that person away, and SQLite hands a freed id out
    again. This module says exactly when what `setup` remembers is right. */
module SetupOwners {
  import opened Prelude
  import opened Schema
  import opened Identity
  import opened Setup

  /** Entry `k` is the last owner entry that lists `key`. */
  ghost predicate LastListing(x: Library, owners: seq<OwnerEntry>, k: nat, key: string) {
    k < |owners| && key in OwnerKeys(x, owners[k]) && forall j :: k < j < |owners| ==> key !in OwnerKeys(x, owners[j])
  }

  /** What the dictionary says of `key` is the person its last entry stands for. */
  ghost predicate Right(x: Library, s: Store, owners: seq<OwnerEntry>, key: string, p: nat) {
    exists k: nat :: LastListing(x, owners, k, key) && StandsFor(x, s, owners[k], p)
  }

  ghost predicate DictionaryIsRight(x: Library, p: Progress, owners: seq<OwnerEntry>) {
    forall key :: key in p.ownerIds ==> Right(x, p.store, owners, key, p.ownerIds[key])
  }

  // ---------------------------------------------------------------- one owner entry

  /** The people an entry merges away: all its matches but the first. */
  function Strays(identifiers: map<Ident, nat>, ids: seq<Ident>): seq<nat> {
    var m := Matched(identifiers, ids);
    if m == [] then [] else m[1..]
  }

  /** No other key of the dictionary names a person whom entry `o` merges away. */
  ghost predicate SparesNext(x: Library, p: Progress, o: OwnerEntry) {
    forall key :: key in p.ownerIds && key !in OwnerKeys(x, o) ==>
      p.ownerIds[key] !in Strays(p.store.identifiers, OwnerIdents(x, o))
  }

  /** An identifier keeps its person unless that person is merged away. */
  lemma {:induction false} KeptUnlessStray(s: Store, name: string, surname: Option<string>, ids: seq<Ident>, i: Ident)
    requires ForeignKeys(s) && UpsertOwner(s, name, surname, ids).Ok? && i in s.identifiers
    ensures var t := UpsertOwner(s, name, surname, ids).value.0;
            && i in t.identifiers
            && (t.identifiers[i] == s.identifiers[i] <==> s.identifiers[i] !in Strays(s.identifiers, ids))
  {
    var p, m := s.identifiers[i], Matched(s.identifiers, ids);
    UpsertedIdent(s, name, surname, ids, i);
    assert Joined(s, ids, i) <==> p in m;
    if m != [] {
      MatchedAreOthers(s.identifiers, ids);
      assert m == [m[0]] + m[1..];
    }
  }

  lemma {:induction false} StandingUnlessStray(x: Library, s: Store, o: OwnerEntry, t: Store, id: nat, e: OwnerEntry,
                                               q: nat)
    requires ForeignKeys(s) && Applies(x, s, o, t, id) && StandsFor(x, s, e, q)
    ensures StandsFor(x, t, e, q) <==> q !in Strays(s.identifiers, OwnerIdents(x, o))
  {
    KeptUnlessStray(s, o.name, o.surname, OwnerIdents(x, o), First(x, e));
  }

  lemma {:induction false} LastIsUnique(x: Library, owners: seq<OwnerEntry>, key: string)
    ensures forall k, j :: LastListing(x, owners, k, key) && LastListing(x, owners, j, key) ==> k == j
  {
  }

  lemma {:induction false} StillLast(x: Library, owners: seq<OwnerEntry>, k: nat, key: string)
    requires owners != [] && key !in OwnerKeys(x, owners[|owners| - 1])
    ensures LastListing(x, owners, k, key) <==> LastListing(x, owners[..|owners| - 1], k, key)
  {
    assert owners == owners[..|owners| - 1] + [owners[|owners| - 1]];
  }

  /** What was right of a key the new entry does not list stays right exactly unless it is merged away. */
  lemma {:induction false} RightUnlessStray(x: Library, s: Store, owners: seq<OwnerEntry>, t: Store, id: nat,
                                            key: string, p: nat)
    requires owners != [] && ForeignKeys(s) && Applies(x, s, owners[|owners| - 1], t, id)
    requires key !in OwnerKeys(x, owners[|owners| - 1]) && Right(x, s, owners[..|owners| - 1], key, p)
    ensures Right(x, t, owners, key, p) <==> p !in Strays(s.identifiers, OwnerIdents(x, owners[|owners| - 1]))
  {
    var front := owners[..|owners| - 1];
    var k: nat :| LastListing(x, front, k, key) && StandsFor(x, s, front[k], p);
    assert owners[k] == front[k];
    StillLast(x, owners, k, key);
    StandingUnlessStray(x, s, owners[|owners| - 1], t, id, owners[k], p);
    LastIsUnique(x, owners, key);
  }

  lemma {:induction false} NewEntryIsRight(x: Library, s: Store, owners: seq<OwnerEntry>, t: Store, id: nat,
                                           key: string)
    requires owners != [] && ForeignKeys(s) && Applies(x, s, owners[|owners| - 1], t, id)
    requires key in OwnerKeys(x, owners[|owners| - 1])
    ensures Right(x, t, owners, key, id)
  {
    EntryStands(x, s, owners[|owners| - 1], t, id);
    assert LastListing(x, owners, |owners| - 1, key);
  }

  /** A right dictionary stays right over one more entry exactly when the entry spares it. */
  lemma {:induction false} NextEntryIff(x: Library, p: Progress, owners: seq<OwnerEntry>, q: Progress, id: nat)
    requires owners != [] && ForeignKeys(p.store) && Applies(x, p.store, owners[|owners| - 1], q.store, id)
    requires q.ownerIds == p.ownerIds + Learned(OwnerKeys(x, owners[|owners| - 1]), id)
    requires DictionaryIsRight(x, p, owners[..|owners| - 1])
    ensures DictionaryIsRight(x, q, owners) <==> SparesNext(x, p, owners[|owners| - 1])
  {
    var o := owners[|owners| - 1];
    forall key | key in q.ownerIds
      ensures key in OwnerKeys(x, o) ==> Right(x, q.store, owners, key, q.ownerIds[key])
      ensures key !in OwnerKeys(x, o) ==> key in p.ownerIds && q.ownerIds[key] == p.ownerIds[key]
      ensures key !in OwnerKeys(x, o) ==>
                (Right(x, q.store, owners, key, p.ownerIds[key])
                 <==> p.ownerIds[key] !in Strays(p.store.identifiers, OwnerIdents(x, o)))
    {
      if key in OwnerKeys(x, o) {
        NewEntryIsRight(x, p.store, owners, q.store, id, key);
      } else {
        RightUnlessStray(x, p.store, owners, q.store, id, key, p.ownerIds[key]);
      }
    }
  }

  // ---------------------------------------------------------------- the owners loop

  /** No entry merges away a person whom the dictionary remembers under another key. */
  ghost predicate Spares(x: Library, s: Store, owners: seq<OwnerEntry>)
    decreases |owners|
  {
    owners == [] || (Spares(x, s, owners[..|owners| - 1])
                     && SparesNext(x, ApplyOwners(x, s, owners[..|owners| - 1]), owners[|owners| - 1]))
  }

  /** The dictionary is right after each entry. */
  ghost predicate RightThroughout(x: Library, s: Store, owners: seq<OwnerEntry>)
    decreases |owners|
  {
    DictionaryIsRight(x, ApplyOwners(x, s, owners), owners)
    && (owners == [] || RightThroughout(x, s, owners[..|owners| - 1]))
  }

  /** The dictionary is right after every entry if and only if every entry spares what it remembers. */
  lemma {:induction false} DictionaryStaysRightIff(x: Library, s: Store, owners: seq<OwnerEntry>)
    requires ForeignKeys(s) && ApplyOwners(x, s, owners).error.None?
    ensures RightThroughout(x, s, owners) <==> Spares(x, s, owners)
    decreases |owners|
  {
    if owners != [] {
      var front := owners[..|owners| - 1];
      var u, t, id := LastOwnerStep(x, s, owners);
      DictionaryStaysRightIff(x, s, front);
      if RightThroughout(x, s, front) {
        NextEntryIff(x, ApplyOwners(x, s, front), owners, ApplyOwners(x, s, owners), id);
      }
    }
  }

  /** So it is right when the loop ends. */
  lemma {:induction false} OwnersEndRight(x: Library, s: Store, owners: seq<OwnerEntry>)
    requires ForeignKeys(s) && ApplyOwners(x, s, owners).error.None? && Spares(x, s, owners)
    ensures DictionaryIsRight(x, ApplyOwners(x, s, owners), owners)
  {
    DictionaryStaysRightIff(x, s, owners);
  }

  // ---------------------------------------------------------------- one key, at the end of the loop

  /** Where the entries from `k` on take person `p`. */
  ghost function Follow(x: Library, s: Store, owners: seq<OwnerEntry>, k: nat, p: nat): nat
    decreases |owners|
  {
    if |owners| <= k then p else
      var front, o := owners[..|owners| - 1], owners[|owners| - 1];
      var r := UpsertOwner(ApplyOwners(x, s, front).store, o.name, o.surname, OwnerIdents(x, o));
      var q := Follow(x, s, front, k, p);
      if r.Err? then q else AfterUpsert(ApplyOwners(x, s, front).store, OwnerIdents(x, o), r.value.1, q)
  }

  /** Just after entry `k` the run has not failed and the entry stands for person `p`. */
  ghost predicate StoodFor(x: Library, s: Store, owners: seq<OwnerEntry>, k: nat, p: nat)
    requires k < |owners|
  {
    && ApplyOwners(x, s, owners[..k + 1]).error.None?
    && StandsFor(x, ApplyOwners(x, s, owners[..k + 1]).store, owners[k], p)
  }

  lemma {:induction false} StoodForInFront(x: Library, s: Store, owners: seq<OwnerEntry>, k: nat, p: nat)
    requires k < |owners| - 1
    ensures StoodFor(x, s, owners, k, p) == StoodFor(x, s, owners[..|owners| - 1], k, p)
  {
    assert owners[..|owners| - 1][..k + 1] == owners[..k + 1];
  }

  /** An entry goes on standing for whoever its person has become. */
  lemma {:induction false} StandsForFollowed(x: Library, s: Store, owners: seq<OwnerEntry>, k: nat, p: nat)
    requires ForeignKeys(s) && ApplyOwners(x, s, owners).error.None? && k < |owners|
    requires StoodFor(x, s, owners, k, p)
    ensures StandsFor(x, ApplyOwners(x, s, owners).store, owners[k], Follow(x, s, owners, k + 1, p))
    decreases |owners|
  {
    if k + 1 == |owners| {
      assert owners[..k + 1] == owners;
    } else {
      var front, o := owners[..|owners| - 1], owners[|owners| - 1];
      var u, t, id := LastOwnerStep(x, s, owners);
      StoodForInFront(x, s, owners, k, p);
      StandsForFollowed(x, s, front, k, p);
      UpsertedIdent(u, o.name, o.surname, OwnerIdents(x, o), First(x, owners[k]));
      assert Joined(u, OwnerIdents(x, o), First(x, owners[k])) <==>
          Holds(u, OwnerIdents(x, o), u.identifiers[First(x, owners[k])]);
    }
  }

  lemma {:induction false} RemembersLast(x: Library, s: Store, owners: seq<OwnerEntry>, k: nat, key: string)
    requires ForeignKeys(s) && ApplyOwners(x, s, owners).error.None? && LastListing(x, owners, k, key)
    ensures var ids := ApplyOwners(x, s, owners).ownerIds;
            key in ids && StoodFor(x, s, owners, k, ids[key])
    decreases |owners|
  {
    var front, o := owners[..|owners| - 1], owners[|owners| - 1];
    var u, t, id := LastOwnerStep(x, s, owners);
    if k == |front| {
      assert owners[..k + 1] == owners;
      EntryStands(x, u, o, t, id);
    } else {
      StillLast(x, owners, k, key);
      RemembersLast(x, s, front, k, key);
      StoodForInFront(x, s, owners, k, ApplyOwners(x, s, front).ownerIds[key]);
    }
  }

  /** What the dictionary says of a key in the end is right if and only if the later entries, whatever
      they merged and whichever ids were used again, lead from that id back to it. */
  lemma {:induction false} KeyIsRightIff(x: Library, s: Store, owners: seq<OwnerEntry>, k: nat, key: string)
    requires ForeignKeys(s) && ApplyOwners(x, s, owners).error.None? && LastListing(x, owners, k, key)
    ensures var p := ApplyOwners(x, s, owners);
            key in p.ownerIds
            && (Right(x, p.store, owners, key, p.ownerIds[key])
                <==> Follow(x, s, owners, k + 1, p.ownerIds[key]) == p.ownerIds[key])
  {
    var p := ApplyOwners(x, s, owners);
    RemembersLast(x, s, owners, k, key);
    StandsForFollowed(x, s, owners, k, p.ownerIds[key]);
    LastIsUnique(x, owners, key);
  }

  // ---------------------------------------------------------------- the accounts

  /** The row has the entry's provider, or else its plugin, as source, its identifier and its credentials,
      and belongs to whom the dictionary gives for its owner. */
  predicate HasEntry(x: Library, ids: map<string, nat>, plugin: string, e: AccountEntry, row: Account) {
    && IsOf(plugin, e, row) && row.credentialsRef == e.credentialsRef
    && x.lower(e.owner) in ids && row.owner == ids[x.lower(e.owner)]
  }

  /** The row is one that the plugin entry `g` declares. */
  ghost predicate DeclaredBy(x: Library, ids: map<string, nat>, g: PluginEntry, row: Account) {
    exists j :: 0 <= j < |g.accounts| && HasEntry(x, ids, g.name, g.accounts[j], row)
  }

  lemma {:induction false} AccountHasEntry(x: Library, p: Progress, plugin: string, e: AccountEntry, a: nat)
    requires a in ApplyAccount(x, p, plugin, e).store.accounts && a !in p.store.accounts
    ensures HasEntry(x, p.ownerIds, plugin, e, ApplyAccount(x, p, plugin, e).store.accounts[a])
  {
  }

  lemma {:induction false} NewInPlugin(x: Library, p: Progress, g: PluginEntry, accounts: seq<AccountEntry>, a: nat)
    requires p.error.None? && accounts <= g.accounts
    requires a in ApplyAccounts(x, p, g.name, accounts).store.accounts && a !in p.store.accounts
    ensures DeclaredBy(x, p.ownerIds, g, ApplyAccounts(x, p, g.name, accounts).store.accounts[a])
    decreases |accounts|
  {
    if accounts != [] {
      var front := accounts[..|accounts| - 1];
      var q := ApplyAccounts(x, p, g.name, front);
      AccountsDeclare(x, p, g.name, front);
      if a in q.store.accounts {
        NewInPlugin(x, p, g, front, a);
        AccountDeclares(x, q, g.name, accounts[|accounts| - 1]);
      } else {
        assert g.accounts[|front|] == accounts[|accounts| - 1];
        AccountHasEntry(x, q, g.name, g.accounts[|front|], a);
      }
    }
  }

  /** Every account that the accounts loops add is declared by an enabled plugin. */
  lemma {:induction false} NewAccounts(x: Library, p: Progress, plugins: seq<PluginEntry>, a: nat)
    requires p.error.None?
    requires a in ApplyPlugins(x, p, plugins).store.accounts && a !in p.store.accounts
    ensures exists k :: 0 <= k < |plugins| && plugins[k].enabled
              && DeclaredBy(x, p.ownerIds, plugins[k], ApplyPlugins(x, p, plugins).store.accounts[a])
    decreases |plugins|
  {
    if plugins != [] {
      var front, g := plugins[..|plugins| - 1], plugins[|plugins| - 1];
      var q := ApplyPlugins(x, p, front);
      PluginsDeclare(x, p, front);
      if q.error.None? && g.enabled {
        AccountsDeclare(x, q, g.name, g.accounts);
      }
      if a in q.store.accounts {
        NewAccounts(x, p, front, a);
        var k :| 0 <= k < |front| && front[k].enabled && DeclaredBy(x, p.ownerIds, front[k], q.store.accounts[a]);
        assert plugins[k] == front[k];
      } else {
        NewInPlugin(x, q, g, g.accounts, a);
        assert plugins[|front|] == g;
      }
    }
  }

  /** The account is the one some enabled entry declares, and belongs to the person that the last owner
      entry listing its owner identifier stands for. */
  ghost predicate GoesToOwner(x: Library, s: Store, cfg: Config, row: Account) {
    exists k, j :: 0 <= k < |cfg.plugins| && cfg.plugins[k].enabled && 0 <= j < |cfg.plugins[k].accounts|
      && IsOf(cfg.plugins[k].name, cfg.plugins[k].accounts[j], row)
      && Right(x, s, cfg.owners, x.lower(cfg.plugins[k].accounts[j].owner), row.owner)
  }

  lemma {:induction false} DeclaredGoes(x: Library, p: Progress, t: Store, cfg: Config, k: nat, row: Account)
    requires DictionaryIsRight(x, p, cfg.owners) && t.identifiers == p.store.identifiers
    requires k < |cfg.plugins| && cfg.plugins[k].enabled && DeclaredBy(x, p.ownerIds, cfg.plugins[k], row)
    ensures GoesToOwner(x, t, cfg, row)
  {
    var g := cfg.plugins[k];
    var j :| 0 <= j < |g.accounts| && HasEntry(x, p.ownerIds, g.name, g.accounts[j], row);
    var key := x.lower(g.accounts[j].owner);
    assert Right(x, p.store, cfg.owners, key, row.owner);
    var n: nat :| LastListing(x, cfg.owners, n, key) && StandsFor(x, p.store, cfg.owners[n], row.owner);
    assert StandsFor(x, t, cfg.owners[n], row.owner);
    assert Right(x, t, cfg.owners, key, row.owner);
  }

  /** When every entry spares what the dictionary remembers, every account that setup adds, even before
      a failure, goes to its owner. */
  lemma {:induction false} NewAccountsGoToOwners(x: Library, s: Store, cfg: Config, a: nat)
    requires Valid(s) && ApplyOwners(x, s, cfg.owners).error.None? && Spares(x, s, cfg.owners)
    requires a in Apply(x, s, cfg).store.accounts && a !in ApplyOwners(x, s, cfg.owners).store.accounts
    ensures GoesToOwner(x, Apply(x, s, cfg).store, cfg, Apply(x, s, cfg).store.accounts[a])
  {
    var p := ApplyOwners(x, s, cfg.owners);
    var t := ApplyPlugins(x, p, cfg.plugins).store;
    OwnersEndRight(x, s, cfg.owners);
    PluginsDeclare(x, p, cfg.plugins);
    NewAccounts(x, p, cfg.plugins, a);
    var k :| 0 <= k < |cfg.plugins| && cfg.plugins[k].enabled
      && DeclaredBy(x, p.ownerIds, cfg.plugins[k], t.accounts[a]);
    DeclaredGoes(x, p, t, cfg, k, t.accounts[a]);
  }

  function Listed(x: Library, owners: seq<OwnerEntry>): set<string> {
    set k, key | 0 <= k < |owners| && key in OwnerKeys(x, owners[k]) :: key
  }

  lemma {:induction false} ListedNext(x: Library, owners: seq<OwnerEntry>)
    requires owners != []
    ensures Listed(x, owners) == Listed(x, owners[..|owners| - 1]) + OwnerKeys(x, owners[|owners| - 1])
  {
    var front := owners[..|owners| - 1];
    assert owners == front + [owners[|owners| - 1]];
    forall key | key in OwnerKeys(x, owners[|owners| - 1]) ensures key in Listed(x, owners) {}
    forall key | key in Listed(x, front) ensures key in Listed(x, owners) {
      var k :| 0 <= k < |front| && key in OwnerKeys(x, front[k]);
      assert owners[k] == front[k];
    }
  }

  lemma {:induction false} EntryLearns(x: Library, p: Progress, o: OwnerEntry)
    ensures ApplyOwner(x, p, o).ownerIds.Keys <= p.ownerIds.Keys + OwnerKeys(x, o)
  {
  }

  /** The dictionary's keys are listed. */
  lemma {:induction false} KeysAreListed(x: Library, s: Store, owners: seq<OwnerEntry>)
    ensures ApplyOwners(x, s, owners).ownerIds.Keys <= Listed(x, owners)
    decreases |owners|
  {
    if owners != [] {
      var p := ApplyOwners(x, s, owners[..|owners| - 1]);
      KeysAreListed(x, s, owners[..|owners| - 1]);
      ListedNext(x, owners);
      EntryLearns(x, p, owners[|owners| - 1]);
    }
  }

  lemma {:induction false} LastLister(x: Library, owners: seq<OwnerEntry>, key: string, some: nat) returns (k: nat)
    requires some < |owners| && key in OwnerKeys(x, owners[some])
    ensures LastListing(x, owners, k, key)
    decreases |owners| - some
  {
    if next :| some < next < |owners| && key in OwnerKeys(x, owners[next]) {
      k := LastLister(x, owners, key, next);
    } else {
      k := some;
    }
  }

  /** Whatever the entries merge, an added account belongs to the person that the last entry listing its
      owner identifier stands for if and only if the later entries lead from its owner id back to it. */
  lemma {:induction false} NewAccountIsRightIff(x: Library, s: Store, cfg: Config, a: nat)
      returns (plugin: nat, j: nat, k: nat)
    requires Valid(s) && ApplyOwners(x, s, cfg.owners).error.None?
    requires a in Apply(x, s, cfg).store.accounts && a !in ApplyOwners(x, s, cfg.owners).store.accounts
    ensures plugin < |cfg.plugins| && cfg.plugins[plugin].enabled && j < |cfg.plugins[plugin].accounts|
    ensures var t, g := Apply(x, s, cfg).store, cfg.plugins[plugin];
            var row, key := t.accounts[a], x.lower(g.accounts[j].owner);
            && HasEntry(x, ApplyOwners(x, s, cfg.owners).ownerIds, g.name, g.accounts[j], row)
            && LastListing(x, cfg.owners, k, key)
            && (Right(x, t, cfg.owners, key, row.owner) <==> Follow(x, s, cfg.owners, k + 1, row.owner) == row.owner)
  {
    var p := ApplyOwners(x, s, cfg.owners);
    var t := ApplyPlugins(x, p, cfg.plugins).store;
    PluginsDeclare(x, p, cfg.plugins);
    NewAccounts(x, p, cfg.plugins, a);
    plugin :| 0 <= plugin < |cfg.plugins| && cfg.plugins[plugin].enabled
      && DeclaredBy(x, p.ownerIds, cfg.plugins[plugin], t.accounts[a]);
    var g := cfg.plugins[plugin];
    j :| 0 <= j < |g.accounts| && HasEntry(x, p.ownerIds, g.name, g.accounts[j], t.accounts[a]);
    var key := x.lower(g.accounts[j].owner);
    KeysAreListed(x, s, cfg.owners);
    var some: nat :| some < |cfg.owners| && key in OwnerKeys(x, cfg.owners[some]);
    k := LastLister(x, cfg.owners, key, some);
    KeyIsRightIff(x, s, cfg.owners, k, key);
    SameRight(x, p.store, t, cfg.owners, key, p.ownerIds[key]);
  }

  lemma {:induction false} SameRight(x: Library, s: Store, t: Store, owners: seq<OwnerEntry>, key: string, p: nat)
    requires t.identifiers == s.identifiers
    ensures Right(x, t, owners, key, p) <==> Right(x, s, owners, key, p)
  {
    forall k: nat | k < |owners| ensures StandsFor(x, t, owners[k], p) <==> StandsFor(x, s, owners[k], p) {}
  }

  // ---------------------------------------------------------------- remembered people who are gone

  /** Everybody the dictionary remembers exists. */
  ghost predicate NoneGone(p: Progress) {
    forall key :: key in p.ownerIds ==> p.ownerIds[key] in p.store.people
  }

  lemma {:induction false} AccountsFindOwners(x: Library, p: Progress, plugin: string, accounts: seq<AccountEntry>)
    requires NoneGone(p) && p.error != Some(ForeignKey)
    ensures ApplyAccounts(x, p, plugin, accounts).error != Some(ForeignKey)
    ensures NoneGone(ApplyAccounts(x, p, plugin, accounts))
    decreases |accounts|
  {
    if accounts != [] { AccountsFindOwners(x, p, plugin, accounts[..|accounts| - 1]); }
  }

  lemma {:induction false} PluginsFindOwners(x: Library, p: Progress, plugins: seq<PluginEntry>)
    requires NoneGone(p) && p.error != Some(ForeignKey)
    ensures ApplyPlugins(x, p, plugins).error != Some(ForeignKey) && NoneGone(ApplyPlugins(x, p, plugins))
    decreases |plugins|
  {
    if plugins != [] {
      PluginsFindOwners(x, p, plugins[..|plugins| - 1]);
      var q, g := ApplyPlugins(x, p, plugins[..|plugins| - 1]), plugins[|plugins| - 1];
      if q.error.None? && g.enabled { AccountsFindOwners(x, q, g.name, g.accounts); }
    }
  }

  /** Some string is not among finitely many. */
  lemma {:induction false} FreshText(used: set<string>) returns (text: string)
    ensures text !in used
  {
    var lengths := set t | t in used :: |t|;
    text := seq(MaxOf(lengths) + 1, _ => 'a');
    assert forall t :: t in used ==> |t| in lengths;
  }

  lemma {:induction false} OneAccount(x: Library, p: Progress, plugin: string, e: AccountEntry)
    requires p.error.None?
    ensures ApplyPlugins(x, p, [PluginEntry(plugin, true, [e])]) == ApplyAccount(x, p, plugin, e)
  {
    var g := PluginEntry(plugin, true, [e]);
    assert [e][..0] == [] && [g][..0] == [];
    assert ApplyAccounts(x, p, plugin, []) == p && ApplyPlugins(x, p, []) == p;
    assert ApplyAccounts(x, p, plugin, [e]) == ApplyAccount(x, p, plugin, e);
  }

  lemma {:induction false} GoneIsRefused(x: Library, p: Progress, raw: string) returns (plugins: seq<PluginEntry>)
    requires p.error.None? && x.lower(raw) in p.ownerIds && p.ownerIds[x.lower(raw)] !in p.store.people
    ensures ApplyPlugins(x, p, plugins).error == Some(ForeignKey)
  {
    var unused := FreshText(set a | a in p.store.accounts :: p.store.accounts[a].identifier);
    var e := AccountEntry(unused, raw, None, None);
    assert AccountsNamed(p.store.accounts, "mail", unused) == {};
    OneAccount(x, p, "mail", e);
    plugins := [PluginEntry("mail", true, [e])];
  }

  /** No accounts section can make setup fail on a missing person if and only if everybody the
      dictionary remembers still exists. */
  lemma {:induction false} NoForeignKeyErrorIff(x: Library, s: Store, owners: seq<OwnerEntry>)
    requires ApplyOwners(x, s, owners).error.None?
    ensures (forall plugins :: Apply(x, s, Config(owners, plugins)).error != Some(ForeignKey))
       <==> NoneGone(ApplyOwners(x, s, owners))
  {
    var p := ApplyOwners(x, s, owners);
    if NoneGone(p) {
      forall plugins ensures Apply(x, s, Config(owners, plugins)).error != Some(ForeignKey) {
        PluginsFindOwners(x, p, plugins);
      }
    } else {
      var key :| key in p.ownerIds && p.ownerIds[key] !in p.store.people;
      KeysAreListed(x, s, owners);
      var k: nat :| k < |owners| && key in OwnerKeys(x, owners[k]);
      var r :| r in owners[k].identifiers && x.lower(r.value) == key;
      var plugins := GoneIsRefused(x, p, r.value);
      assert Apply(x, s, Config(owners, plugins)).error == Some(ForeignKey);
    }
  }

  /** So sparing entries rule that failure out. */
  lemma {:induction false} SparingNeverForeignKey(x: Library, s: Store, cfg: Config)
    requires ForeignKeys(s) && ApplyOwners(x, s, cfg.owners).error.None? && Spares(x, s, cfg.owners)
    ensures Apply(x, s, cfg).error != Some(ForeignKey)
  {
    var p := ApplyOwners(x, s, cfg.owners);
    OwnersEndRight(x, s, cfg.owners);
    OwnersRunKeepsRefs(x, s, cfg.owners);
    forall key | key in p.ownerIds ensures p.ownerIds[key] in p.store.people {
      assert Right(x, p.store, cfg.owners, key, p.ownerIds[key]);
    }
    PluginsFindOwners(x, p, cfg.plugins);
  }
}
