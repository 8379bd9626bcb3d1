/** The identity layer: core/identity.py and the owner and account upserts of core/storage.py,
    as functions on the tables, and what they do to the partition of identifiers into people. */
module Identity {
  import opened Prelude
  import opened Schema

  // ---------------------------------------------------------------- merging people

  /** Where person `p` is found after the people in `f` have moved. */
  function Moved(f: map<nat, nat>, p: nat): nat {
    if p in f then f[p] else p
  }

  function MovedIdents(f: map<nat, nat>, identifiers: map<Ident, nat>): map<Ident, nat> {
    map i | i in identifiers :: Moved(f, identifiers[i])
  }

  function MovedAccounts(f: map<nat, nat>, accounts: map<nat, Account>): map<nat, Account> {
    map a | a in accounts :: accounts[a].(owner := Moved(f, accounts[a].owner))
  }

  function MovedRole(f: map<nat, nat>, r: RoleRow): RoleRow {
    r.(person := Moved(f, r.person))
  }

  function MovedRoles(f: map<nat, nat>, roles: set<RoleRow>): set<RoleRow> {
    set r | r in roles :: MovedRole(f, r)
  }

  /** The tables with every reference to a person replaced by where that person moved,
      and the moved people gone. */
  function Quotient(s: Store, f: map<nat, nat>): Store {
    s.(people := s.people - f.Keys,
       identifiers := MovedIdents(f, s.identifiers),
       accounts := MovedAccounts(f, s.accounts),
       roles := MovedRoles(f, s.roles))
  }

  /** All of `strays` move to `keep`. */
  function Collapse(strays: seq<nat>, keep: nat): map<nat, nat> {
    map p | p in strays :: keep
  }

  /** Whether some row still refers to person `p`. */
  predicate Referenced(s: Store, p: nat) {
    || (exists i :: i in s.identifiers && s.identifiers[i] == p)
    || (exists a :: a in s.accounts && s.accounts[a].owner == p)
    || (exists r :: r in s.roles && r.person == p)
  }

  /** `merge_people`: refused on a self-merge, and when rows would be re-pointed at a person who
      does not exist. */
  function MergePeople(s: Store, keep: nat, discard: nat): Result<Store> {
    if keep == discard then Err(SelfMerge)
    else if keep !in s.people && Referenced(s, discard) then Err(ForeignKey)
    else Ok(Quotient(s, map[discard := keep]))
  }

  /** Whoever refers to `discard` in `s` refers to `keep` in `t`, where `discard` is gone, and nothing else is
      different. */
  ghost predicate Merged(s: Store, keep: nat, discard: nat, t: Store) {
    && t == s.(people := t.people, identifiers := t.identifiers, accounts := t.accounts, roles := t.roles)
    && (forall p :: p in t.people <==> p in s.people && p != discard)
    && (forall p :: p in t.people ==> t.people[p] == s.people[p])
    && t.identifiers.Keys == s.identifiers.Keys && t.accounts.Keys == s.accounts.Keys
    && (forall i :: i in s.identifiers ==>
          t.identifiers[i] == if s.identifiers[i] == discard then keep else s.identifiers[i])
    && (forall a :: a in s.accounts ==>
          var owner := s.accounts[a].owner;
          t.accounts[a] == s.accounts[a].(owner := if owner == discard then keep else owner))
    && (forall r: RoleRow :: r in t.roles <==>
          r.person != discard && (r in s.roles || (r.person == keep && RoleRow(r.message, discard, r.role) in s.roles)))
  }

  lemma {:induction false} MergedRole(s: Store, keep: nat, discard: nat, r: RoleRow)
    requires keep != discard
    ensures r in MovedRoles(map[discard := keep], s.roles)
       <==> r.person != discard && (r in s.roles
                                    || (r.person == keep && RoleRow(r.message, discard, r.role) in s.roles))
  {
    var f := map[discard := keep];
    if r in s.roles && r.person != discard { assert r == MovedRole(f, r); }
    if r.person == keep && RoleRow(r.message, discard, r.role) in s.roles {
      assert r == MovedRole(f, RoleRow(r.message, discard, r.role));
    }
    if r in MovedRoles(f, s.roles) {
      var o :| o in s.roles && r == MovedRole(f, o);
      assert o == RoleRow(r.message, o.person, r.role);
    }
  }

  /** A merge is refused exactly for one person, and when rows would refer to somebody who is not there. */
  lemma {:induction false} MergePeopleIs(s: Store, keep: nat, discard: nat)
    ensures var r := MergePeople(s, keep, discard);
            && (r == Err(SelfMerge) <==> keep == discard)
            && (r == Err(ForeignKey) <==> keep != discard && keep !in s.people && Referenced(s, discard))
            && (r.Err? ==> r.error == SelfMerge || r.error == ForeignKey)
            && (r.Ok? ==> Merged(s, keep, discard, r.value))
  {
    forall r | keep != discard
      ensures r in MovedRoles(map[discard := keep], s.roles)
         <==> r.person != discard && (r in s.roles
                                      || (r.person == keep && RoleRow(r.message, discard, r.role) in s.roles))
    {
      MergedRole(s, keep, discard, r);
    }
  }

  /** Merging the strays one at a time. */
  function MergeEach(s: Store, keep: nat, strays: seq<nat>): Result<Store>
    decreases |strays|
  {
    if strays == [] then Ok(s) else
      var rest := MergeEach(s, keep, strays[..|strays| - 1]);
      if rest.Err? then rest else MergePeople(rest.value, keep, strays[|strays| - 1])
  }

  lemma {:induction false} StillRoles(f: map<nat, nat>, roles: set<RoleRow>)
    requires forall r :: r in roles ==> r.person !in f
    ensures MovedRoles(f, roles) == roles
  {
    forall r | r in roles ensures r in MovedRoles(f, roles) {
      assert r == MovedRole(f, r);
    }
  }

  lemma {:induction false} MoveRolesTwice(f: map<nat, nat>, g: map<nat, nat>, roles: set<RoleRow>)
    requires forall p :: p in f ==> f[p] !in g
    ensures MovedRoles(g, MovedRoles(f, roles)) == MovedRoles(g + f, roles)
  {
    forall r | r in roles
      ensures MovedRole(g, MovedRole(f, r)) == MovedRole(g + f, r)
    {
    }
    forall x | x in MovedRoles(g + f, roles) ensures x in MovedRoles(g, MovedRoles(f, roles)) {
      var r :| r in roles && x == MovedRole(g + f, r);
      assert MovedRole(f, r) in MovedRoles(f, roles);
    }
    forall x | x in MovedRoles(g, MovedRoles(f, roles)) ensures x in MovedRoles(g + f, roles) {
      var y :| y in MovedRoles(f, roles) && x == MovedRole(g, y);
      var r :| r in roles && y == MovedRole(f, r);
      assert x == MovedRole(g + f, r);
    }
  }

  lemma {:induction false} MoveMapsTwice(f: map<nat, nat>, g: map<nat, nat>, identifiers: map<Ident, nat>,
                                         accounts: map<nat, Account>)
    requires forall p :: p in f ==> f[p] !in g
    ensures MovedIdents(g, MovedIdents(f, identifiers)) == MovedIdents(g + f, identifiers)
    ensures MovedAccounts(g, MovedAccounts(f, accounts)) == MovedAccounts(g + f, accounts)
  {
  }

  lemma {:induction false} MoveNobody(s: Store)
    ensures Quotient(s, map[]) == s
  {
    NobodyToMove(s, map[]);
  }

  /** Moving in two stages is moving at once, when nobody is moved onto a person that moves next. */
  lemma {:induction false} MoveTwice(s: Store, f: map<nat, nat>, g: map<nat, nat>)
    requires forall p :: p in f ==> f[p] !in g
    ensures Quotient(Quotient(s, f), g) == Quotient(s, g + f)
  {
    MoveMapsTwice(f, g, s.identifiers, s.accounts);
    MoveRolesTwice(f, g, s.roles);
    assert s.people - f.Keys - g.Keys == s.people - (g + f).Keys;
  }

  /** One more stray after others have moved to the same person. */
  lemma {:induction false} MergeNext(s: Store, keep: nat, strays: seq<nat>, next: nat)
    requires keep in s.people && keep !in strays && next != keep
    ensures MergePeople(Quotient(s, Collapse(strays, keep)), keep, next)
         == Ok(Quotient(s, Collapse(strays + [next], keep)))
  {
    var f, g := Collapse(strays, keep), map[next := keep];
    MoveTwice(s, f, g);
    assert g + f == Collapse(strays + [next], keep);
  }

  /** Merging a list of strays one by one is the one simultaneous move, whatever their order. */
  lemma {:induction false} MergeEachIsOneMove(s: Store, keep: nat, strays: seq<nat>)
    requires keep in s.people && keep !in strays
    ensures MergeEach(s, keep, strays) == Ok(Quotient(s, Collapse(strays, keep)))
    decreases |strays|
  {
    if strays == [] {
      assert Collapse(strays, keep) == map[];
      MoveNobody(s);
    } else {
      var front, last := strays[..|strays| - 1], strays[|strays| - 1];
      MergeEachIsOneMove(s, keep, front);
      MergeNext(s, keep, front, last);
      assert strays == front + [last];
    }
  }

  lemma {:induction false} MergeOrderDoesNotMatter(s: Store, keep: nat, strays: seq<nat>, strays': seq<nat>)
    requires keep in s.people && keep !in strays
    requires multiset(strays) == multiset(strays')
    ensures MergeEach(s, keep, strays) == MergeEach(s, keep, strays')
  {
    forall p ensures p in strays <==> p in strays' {
      assert p in strays <==> p in multiset(strays);
      assert p in strays' <==> p in multiset(strays');
    }
    MergeEachIsOneMove(s, keep, strays);
    MergeEachIsOneMove(s, keep, strays');
    assert Collapse(strays, keep) == Collapse(strays', keep);
  }

  lemma {:induction false} MoveKeepsSender(s: Store, f: map<nat, nat>)
    requires OneSender(s)
    ensures OneSender(Quotient(s, f))
  {
    var q := Quotient(s, f);
    forall m | m in q.messages ensures exists p :: IsSender(q, m, p) {
      var p :| IsSender(s, m, p);
      assert MovedRole(f, RoleRow(m, p, From)) in q.roles;
      assert IsSender(q, m, Moved(f, p));
    }
    forall m, a, b | IsSender(q, m, a) && IsSender(q, m, b) ensures a == b {
      var r :| r in s.roles && MovedRole(f, r) == RoleRow(m, a, From);
      var t :| t in s.roles && MovedRole(f, t) == RoleRow(m, b, From);
      assert r == RoleRow(m, r.person, From) && t == RoleRow(m, t.person, From);
      assert IsSender(s, m, r.person) && IsSender(s, m, t.person);
    }
  }

  lemma {:induction false} SameRolesSameSender(s: Store, t: Store)
    requires OneSender(s) && t.roles == s.roles && t.messages == s.messages
    ensures OneSender(t)
  {
    assert forall m, p :: IsSender(s, m, p) == IsSender(t, m, p);
    forall m | m in t.messages ensures exists p :: IsSender(t, m, p) {
      var p :| IsSender(s, m, p);
      assert IsSender(t, m, p);
    }
  }

  lemma {:induction false} MoveKeepsUnique(s: Store, f: map<nat, nat>)
    requires UniqueKeys(s)
    ensures UniqueKeys(Quotient(s, f))
  {
    var q := Quotient(s, f);
    forall a, b | a in q.accounts && b in q.accounts && SameAccount(q.accounts[a], q.accounts[b]) ensures a == b {
      assert SameAccount(s.accounts[a], s.accounts[b]);
    }
    assert q.messages == s.messages;
  }

  /** A move keeps every constraint as long as people move onto people who stay. */
  lemma {:induction false} MoveKeepsValid(s: Store, f: map<nat, nat>)
    requires Valid(s)
    requires forall p :: p in f ==> f[p] in s.people && f[p] !in f
    ensures Valid(Quotient(s, f))
  {
    MoveKeepsSender(s, f);
    MoveKeepsUnique(s, f);
  }

  /** Moving people nothing refers to only removes them. */
  lemma {:induction false} NobodyToMove(s: Store, f: map<nat, nat>)
    requires forall p :: p in f ==> !Referenced(s, p)
    ensures Quotient(s, f) == s.(people := s.people - f.Keys)
  {
    assert MovedIdents(f, s.identifiers) == s.identifiers;
    assert MovedAccounts(f, s.accounts) == s.accounts;
    StillRoles(f, s.roles);
  }

  lemma {:induction false} DropKeepsValid(s: Store, gone: set<nat>)
    requires Valid(s)
    requires forall p :: p in gone ==> !Referenced(s, p)
    ensures Valid(s.(people := s.people - gone))
  {
    var q := s.(people := s.people - gone);
    forall m, p | IsSender(q, m, p) ensures IsSender(s, m, p) {}
    forall m | m in q.messages ensures exists p :: IsSender(q, m, p) {
      var p :| IsSender(s, m, p);
      assert IsSender(q, m, p);
    }
  }

  lemma {:induction false} MergeKeepsValid(s: Store, keep: nat, discard: nat)
    requires Valid(s)
    requires MergePeople(s, keep, discard).Ok?
    ensures Valid(MergePeople(s, keep, discard).value)
  {
    var f := map[discard := keep];
    if keep in s.people {
      MoveKeepsValid(s, f);
    } else {
      NobodyToMove(s, f);
      DropKeepsValid(s, f.Keys);
    }
  }

  // ---------------------------------------------------------------- finding or creating people

  /** A correspondent to look up: normalised identifier, and the name to use if new. */
  datatype Contact = Contact(ident: Ident, name: string, surname: Option<string>)

  /** `find_or_create_person`. */
  function FindOrCreate(s: Store, c: Contact): (Store, nat) {
    if c.ident in s.identifiers then (s, s.identifiers[c.ident]) else
      var id := NextId(s.people.Keys);
      (s.(people := s.people[id := Person(c.name, c.surname, false)],
          identifiers := s.identifiers[c.ident := id]), id)
  }

  /** Looks up a list of contacts in order, keeping each one's person id. */
  function FindOrCreateAll(s: Store, cs: seq<Contact>): (r: (Store, seq<nat>))
    ensures |r.1| == |cs|
    decreases |cs|
  {
    if cs == [] then (s, []) else
      var (t, ids) := FindOrCreateAll(s, cs[..|cs| - 1]);
      var (u, id) := FindOrCreate(t, cs[|cs| - 1]);
      (u, ids + [id])
  }

  /** `t` is `s` with people and identifiers added and nothing else changed. */
  ghost predicate OnlyNewPeople(s: Store, t: Store) {
    && t == s.(people := t.people, identifiers := t.identifiers)
    && (forall p :: p in s.people ==> p in t.people && t.people[p] == s.people[p])
    && (forall i :: i in s.identifiers ==> i in t.identifiers && t.identifiers[i] == s.identifiers[i])
  }

  /** One lookup: a known identifier gives its person and changes nothing, an unknown one gets a person who
      was not there, with the contact's name and no owner. */
  lemma {:induction false} FindOrCreateExtends(s: Store, c: Contact)
    requires Valid(s)
    ensures var (t, id) := FindOrCreate(s, c);
            && OnlyNewPeople(s, t) && Valid(t) && id in t.people
            && t.identifiers == s.identifiers[c.ident := id]
            && (if c.ident in s.identifiers then t == s && id == s.identifiers[c.ident]
                else id !in s.people && t.people == s.people[id := Person(c.name, c.surname, false)])
  {
    var (t, id) := FindOrCreate(s, c);
    if c.ident !in s.identifiers {
      MorePeopleKeepsValid(s, t);
    } else {
      assert s.identifiers[c.ident := id] == s.identifiers;
    }
  }

  lemma {:induction false} MorePeopleKeepsValid(s: Store, t: Store)
    requires Valid(s) && OnlyNewPeople(s, t)
    requires forall i :: i in t.identifiers ==> t.identifiers[i] in t.people
    ensures Valid(t)
  {
    SameRolesSameSender(s, t);
    assert UniqueKeys(t) by {
      assert t.accounts == s.accounts && t.messages == s.messages;
    }
  }

  /** Existing identifiers keep their person, and the k-th contact resolves to the k-th id. */
  lemma {:induction false} FindOrCreateAllExtends(s: Store, cs: seq<Contact>)
    requires Valid(s)
    ensures var (t, ids) := FindOrCreateAll(s, cs);
            && OnlyNewPeople(s, t) && Valid(t)
            && (forall k :: 0 <= k < |ids| ==> ResolvesTo(t, cs[k].ident, ids[k]))
    decreases |cs|
  {
    if cs != [] {
      var (t, ids) := FindOrCreateAll(s, cs[..|cs| - 1]);
      var last := cs[|cs| - 1];
      FindOrCreateAllExtends(s, cs[..|cs| - 1]);
      FindOrCreateExtends(t, last);
      var (u, id) := FindOrCreate(t, last);
      assert FindOrCreateAll(s, cs) == (u, ids + [id]);
      forall k | 0 <= k < |ids| + 1 ensures ResolvesTo(u, cs[k].ident, (ids + [id])[k]) {
        if k < |ids| { assert ResolvesTo(t, cs[k].ident, ids[k]); }
      }
    }
  }

  ghost predicate ResolvesTo(s: Store, i: Ident, p: nat) {
    i in s.identifiers && s.identifiers[i] == p && p in s.people
  }

  ghost predicate SamePerson(s: Store, i: Ident, j: Ident) {
    i in s.identifiers && j in s.identifiers && s.identifiers[i] == s.identifiers[j]
  }

  /** Two identifiers are one person in `t` exactly when they are equal or were one person in `s`. */
  ghost predicate SamePartition(s: Store, t: Store) {
    forall i, j :: i in t.identifiers && j in t.identifiers ==>
      (SamePerson(t, i, j) <==> i == j || SamePerson(s, i, j))
  }

  lemma {:induction false} PartitionThrough(s: Store, t: Store, u: Store)
    requires s.identifiers.Keys <= t.identifiers.Keys <= u.identifiers.Keys
    requires SamePartition(s, t) && SamePartition(t, u)
    ensures SamePartition(s, u)
  {
    forall i, j | i in u.identifiers && j in u.identifiers
      ensures SamePerson(u, i, j) <==> i == j || SamePerson(s, i, j)
    {
      if SamePerson(s, i, j) { assert SamePerson(t, i, j); }
    }
  }

  lemma {:induction false} FindOrCreateSeparates(s: Store, c: Contact)
    requires Valid(s)
    ensures var t := FindOrCreate(s, c).0; s.identifiers.Keys <= t.identifiers.Keys && SamePartition(s, t)
  {
  }

  /** Looking people up never makes two identifiers one person that were not: whoever was unknown gets a
      person of their own. */
  lemma {:induction false} FindOrCreateAllSeparates(s: Store, cs: seq<Contact>)
    requires Valid(s)
    ensures var t := FindOrCreateAll(s, cs).0; s.identifiers.Keys <= t.identifiers.Keys && SamePartition(s, t)
    decreases |cs|
  {
    if cs != [] {
      var t := FindOrCreateAll(s, cs[..|cs| - 1]).0;
      FindOrCreateAllSeparates(s, cs[..|cs| - 1]);
      FindOrCreateAllExtends(s, cs[..|cs| - 1]);
      FindOrCreateSeparates(t, cs[|cs| - 1]);
      PartitionThrough(s, t, FindOrCreateAll(s, cs).0);
    }
  }

  /** The identifiers afterwards are the old ones and those of the contacts. */
  lemma {:induction false} PeopleHold(s: Store, cs: seq<Contact>, i: Ident)
    ensures i in FindOrCreateAll(s, cs).0.identifiers
       <==> i in s.identifiers || exists k :: 0 <= k < |cs| && cs[k].ident == i
    decreases |cs|
  {
    if cs != [] {
      var front := cs[..|cs| - 1];
      PeopleHold(s, front, i);
      assert cs == front + [cs[|cs| - 1]];
    }
  }

  /** Contact `k` is the first with an identifier that nobody had, and `p` is somebody new, named by it and
      no owner. */
  ghost predicate AddedFor(s: Store, t: Store, cs: seq<Contact>, k: nat, p: nat) {
    && k < |cs| && cs[k].ident !in s.identifiers && (forall h :: 0 <= h < k ==> cs[h].ident != cs[k].ident)
    && ResolvesTo(t, cs[k].ident, p) && p !in s.people
    && t.people[p] == Person(cs[k].name, cs[k].surname, false)
  }

  lemma {:induction false} LastIsAdded(s: Store, t: Store, cs: seq<Contact>)
    requires Valid(s) && cs != [] && t == FindOrCreateAll(s, cs[..|cs| - 1]).0
    requires cs[|cs| - 1].ident !in t.identifiers
    ensures var (u, id) := FindOrCreate(t, cs[|cs| - 1]); id !in t.people && AddedFor(s, u, cs, |cs| - 1, id)
  {
    FindOrCreateAllExtends(s, cs[..|cs| - 1]);
    PeopleHold(s, cs[..|cs| - 1], cs[|cs| - 1].ident);
    forall h | 0 <= h < |cs| - 1 ensures cs[h].ident != cs[|cs| - 1].ident {
      assert cs[..|cs| - 1][h] == cs[h];
    }
  }

  lemma {:induction false} StillAdded(s: Store, t: Store, u: Store, cs: seq<Contact>, k: nat, p: nat)
    requires cs != [] && AddedFor(s, t, cs[..|cs| - 1], k, p) && OnlyNewPeople(t, u)
    ensures AddedFor(s, u, cs, k, p)
  {
    assert forall h :: 0 <= h < |cs| - 1 ==> cs[..|cs| - 1][h] == cs[h];
  }

  /** Each contact that is the first with an unknown identifier gets a new person with its name. */
  lemma {:induction false} FirstGetsPerson(s: Store, cs: seq<Contact>, k: nat)
    requires Valid(s) && k < |cs| && cs[k].ident !in s.identifiers
    requires forall h :: 0 <= h < k ==> cs[h].ident != cs[k].ident
    ensures var (t, ids) := FindOrCreateAll(s, cs); AddedFor(s, t, cs, k, ids[k])
    decreases |cs|
  {
    var front, last := cs[..|cs| - 1], cs[|cs| - 1];
    var t := FindOrCreateAll(s, front).0;
    FindOrCreateAllExtends(s, front);
    if k == |front| {
      PeopleHold(s, front, last.ident);
      LastIsAdded(s, t, cs);
    } else {
      FirstGetsPerson(s, front, k);
      FindOrCreateExtends(t, last);
      StillAdded(s, t, FindOrCreateAll(s, cs).0, cs, k, FindOrCreateAll(s, front).1[k]);
    }
  }

  /** And nobody else is new. */
  lemma {:induction false} NewPersonIsAdded(s: Store, cs: seq<Contact>, p: nat) returns (k: nat)
    requires Valid(s) && p in FindOrCreateAll(s, cs).0.people && p !in s.people
    ensures AddedFor(s, FindOrCreateAll(s, cs).0, cs, k, p)
    decreases |cs|
  {
    var front, last := cs[..|cs| - 1], cs[|cs| - 1];
    var t := FindOrCreateAll(s, front).0;
    FindOrCreateAllExtends(s, front);
    FindOrCreateExtends(t, last);
    if p in t.people {
      k := NewPersonIsAdded(s, front, p);
      StillAdded(s, t, FindOrCreateAll(s, cs).0, cs, k, p);
    } else {
      k := |front|;
      LastIsAdded(s, t, cs);
    }
  }

  // ---------------------------------------------------------------- owners

  /** An identifier as configured, before normalisation. */
  datatype RawIdent = RawIdent(kind: Kind, value: string)

  function Idents(x: Library, raw: seq<RawIdent>): (ids: seq<Ident>)
    ensures |ids| == |raw|
  {
    seq(|raw|, k requires 0 <= k < |raw| => Ident(raw[k].kind, x.norm(raw[k].kind, raw[k].value)))
  }

  function Elements(m: seq<nat>): set<nat> {
    set p | p in m
  }

  /** The people who already hold one of `ids`, in order of first appearance. */
  function Matched(identifiers: map<Ident, nat>, ids: seq<Ident>): (m: seq<nat>)
    ensures forall p :: p in m <==> exists i :: i in ids && i in identifiers && identifiers[i] == p
    ensures |m| == |Elements(m)|
    decreases |ids|
  {
    if ids == [] then [] else
      var m, last := Matched(identifiers, ids[..|ids| - 1]), ids[|ids| - 1];
      assert ids == ids[..|ids| - 1] + [last];
      assert last in identifiers ==> Elements(m + [identifiers[last]]) == Elements(m) + {identifiers[last]};
      if last in identifiers && identifiers[last] !in m then m + [identifiers[last]] else m
  }

  lemma {:induction false} MatchedAreOthers(identifiers: map<Ident, nat>, ids: seq<Ident>)
    requires Matched(identifiers, ids) != []
    ensures var m := Matched(identifiers, ids); m[0] !in m[1..]
  {
    var m := Matched(identifiers, ids);
    if m[0] in m[1..] {
      assert Elements(m) == Elements(m[1..]);
      ElementsBound(m[1..]);
    }
  }

  lemma {:induction false} ElementsBound(m: seq<nat>)
    ensures |Elements(m)| <= |m|
    decreases |m|
  {
    if m != [] {
      ElementsBound(m[1..]);
      assert Elements(m) == Elements(m[1..]) + {m[0]};
    }
  }

  /** The identifiers after each of `ids` not yet present is attached to `p`. */
  function Attach(identifiers: map<Ident, nat>, ids: seq<Ident>, p: nat): map<Ident, nat> {
    (map i | i in ids :: p) + identifiers
  }

  predicate Distinct(ids: seq<Ident>) {
    forall a, b :: 0 <= a < b < |ids| ==> ids[a] != ids[b]
  }

  /** `Storage.upsert_owner` on normalised identifiers. With no match the identifiers go in by plain
      INSERT, so an identifier listed twice violates UNIQUE and the new row is rolled back. */
  function UpsertOwner(s: Store, name: string, surname: Option<string>, ids: seq<Ident>): Result<(Store, nat)> {
    var m := Matched(s.identifiers, ids);
    if m != [] then
      var q := Quotient(s, Collapse(m[1..], m[0]));
      Ok((q.(people := q.people[m[0] := Person(name, surname, true)],
             identifiers := Attach(q.identifiers, ids, m[0])), m[0]))
    else if !Distinct(ids) then Err(UniqueKey)
    else
      var id := NextId(s.people.Keys);
      Ok((s.(people := s.people[id := Person(name, surname, true)],
             identifiers := Attach(s.identifiers, ids, id)), id))
  }

  /** `p` holds one of `ids`. */
  ghost predicate Holds(s: Store, ids: seq<Ident>, p: nat) {
    exists i :: i in ids && i in s.identifiers && s.identifiers[i] == p
  }

  /** `i` is supplied, or belongs to someone who holds a supplied identifier. */
  ghost predicate Joined(s: Store, ids: seq<Ident>, i: Ident) {
    i in ids || (i in s.identifiers && Holds(s, ids, s.identifiers[i]))
  }

  /** Where an upsert that returned `id` leaves person `p`. */
  ghost function AfterUpsert(s: Store, ids: seq<Ident>, id: nat, p: nat): nat {
    if Holds(s, ids, p) then id else p
  }

  /** Collapsing onto the first match moves nobody more than collapsing the other matches. */
  lemma {:induction false} CollapseOthers(s: Store, m: seq<nat>)
    requires m != []
    ensures var f, g := Collapse(m, m[0]), Collapse(m[1..], m[0]);
            && MovedIdents(f, s.identifiers) == MovedIdents(g, s.identifiers)
            && MovedAccounts(f, s.accounts) == MovedAccounts(g, s.accounts)
            && MovedRoles(f, s.roles) == MovedRoles(g, s.roles)
  {
    var f, g := Collapse(m, m[0]), Collapse(m[1..], m[0]);
    forall p ensures Moved(f, p) == Moved(g, p) {
      assert p in m <==> p == m[0] || p in m[1..];
    }
    assert forall r :: MovedRole(f, r) == MovedRole(g, r);
    assert MovedRoles(f, s.roles) == MovedRoles(g, s.roles);
  }

  /** An upsert in one formula: all matched people move to the result, which is (re)named. */
  lemma {:induction false} UpsertMoves(s: Store, name: string, surname: Option<string>, ids: seq<Ident>)
    requires UpsertOwner(s, name, surname, ids).Ok?
    ensures var (t, id) := UpsertOwner(s, name, surname, ids).value;
            var f := Collapse(Matched(s.identifiers, ids), id);
            && t == s.(people := (s.people - f.Keys)[id := Person(name, surname, true)],
                       identifiers := Attach(MovedIdents(f, s.identifiers), ids, id),
                       accounts := MovedAccounts(f, s.accounts),
                       roles := MovedRoles(f, s.roles))
            && (id in s.people ==> Holds(s, ids, id))
  {
    var (t, id) := UpsertOwner(s, name, surname, ids).value;
    var m := Matched(s.identifiers, ids);
    if m != [] {
      CollapseOthers(s, m);
      RenameSurvivor(s.people, m, Person(name, surname, true));
      assert id == m[0] && m[0] in m;
    } else {
      assert Collapse(m, id) == map[];
      MoveNobody(s);
    }
  }

  lemma {:induction false} RenameSurvivor(people: map<nat, Person>, m: seq<nat>, p: Person)
    requires m != []
    ensures (people - Collapse(m, m[0]).Keys)[m[0] := p] == (people - Collapse(m[1..], m[0]).Keys)[m[0] := p]
  {
    assert m == [m[0]] + m[1..];
  }

  lemma {:induction false} MovedAfterUpsert(s: Store, ids: seq<Ident>, id: nat, p: nat)
    ensures Moved(Collapse(Matched(s.identifiers, ids), id), p) == AfterUpsert(s, ids, id, p)
  {
  }

  /** `upsert_owner` joins exactly the classes of the supplied identifiers: every supplied
      identifier resolves to the returned person, and otherwise two identifiers are the same
      person after if and only if they were before. */
  lemma {:induction false} UpsertOwnerJoins(s: Store, name: string, surname: Option<string>, ids: seq<Ident>)
    requires ForeignKeys(s)
    requires UpsertOwner(s, name, surname, ids).Ok?
    ensures var (t, id) := UpsertOwner(s, name, surname, ids).value;
            && (forall i :: i in t.identifiers <==> i in s.identifiers || i in ids)
            && (forall i :: i in ids ==> t.identifiers[i] == id)
            && (forall i, j :: i in t.identifiers && j in t.identifiers ==>
                  (SamePerson(t, i, j) <==>
                    i == j || SamePerson(s, i, j) || (Joined(s, ids, i) && Joined(s, ids, j))))
  {
    var (t, id) := UpsertOwner(s, name, surname, ids).value;
    UpsertMoves(s, name, surname, ids);
    forall i | i in t.identifiers
      ensures t.identifiers[i] == if Joined(s, ids, i) then id else s.identifiers[i]
      ensures !Joined(s, ids, i) ==> i in s.identifiers && s.identifiers[i] != id
    {
      UpsertedIdent(s, name, surname, ids, i);
    }
  }

  /** Where one identifier points after an upsert. */
  lemma {:induction false} UpsertedIdent(s: Store, name: string, surname: Option<string>, ids: seq<Ident>, i: Ident)
    requires ForeignKeys(s)
    requires UpsertOwner(s, name, surname, ids).Ok?
    ensures var (t, id) := UpsertOwner(s, name, surname, ids).value;
            && (i in t.identifiers <==> i in s.identifiers || i in ids)
            && (i in t.identifiers ==> t.identifiers[i] == if Joined(s, ids, i) then id else s.identifiers[i])
            && (i in s.identifiers && !Joined(s, ids, i) ==> s.identifiers[i] != id)
  {
    var (t, id) := UpsertOwner(s, name, surname, ids).value;
    UpsertMoves(s, name, surname, ids);
    if i in s.identifiers {
      MovedAfterUpsert(s, ids, id, s.identifiers[i]);
      if i in ids { assert Holds(s, ids, s.identifiers[i]); }
    }
  }

  /** People, account owners and message roles follow the same merge, and only the returned person
      is renamed. */
  lemma {:induction false} UpsertOwnerCarries(s: Store, name: string, surname: Option<string>, ids: seq<Ident>)
    requires UpsertOwner(s, name, surname, ids).Ok?
    ensures var (t, id) := UpsertOwner(s, name, surname, ids).value;
            && (forall p :: p in t.people <==> p == id || (p in s.people && !Holds(s, ids, p)))
            && t.people[id] == Person(name, surname, true)
            && (forall p :: p in t.people && p != id ==> t.people[p] == s.people[p])
            && t.accounts.Keys == s.accounts.Keys
            && (forall a :: a in s.accounts ==>
                  t.accounts[a] == s.accounts[a].(owner := AfterUpsert(s, ids, id, s.accounts[a].owner)))
            && t.messages == s.messages && t.attachments == s.attachments && t.blobs == s.blobs && t.status == s.status
  {
    UpsertMoves(s, name, surname, ids);
    var id := UpsertOwner(s, name, surname, ids).value.1;
    forall p ensures p in Matched(s.identifiers, ids) <==> Holds(s, ids, p) {}
    forall a | a in s.accounts { MovedAfterUpsert(s, ids, id, s.accounts[a].owner); }
  }

  lemma {:induction false} UpsertOwnerCarriesRoles(s: Store, name: string, surname: Option<string>, ids: seq<Ident>,
                                                   r: RoleRow)
    requires UpsertOwner(s, name, surname, ids).Ok?
    ensures var (t, id) := UpsertOwner(s, name, surname, ids).value;
            r in t.roles <==> exists p ::
              RoleRow(r.message, p, r.role) in s.roles && r.person == AfterUpsert(s, ids, id, p)
  {
    var (t, id) := UpsertOwner(s, name, surname, ids).value;
    var f := Collapse(Matched(s.identifiers, ids), id);
    UpsertMoves(s, name, surname, ids);
    if r in t.roles {
      var o :| o in s.roles && MovedRole(f, o) == r;
      MovedAfterUpsert(s, ids, id, o.person);
      assert o == RoleRow(r.message, o.person, r.role);
    }
    if p :| RoleRow(r.message, p, r.role) in s.roles && r.person == AfterUpsert(s, ids, id, p) {
      MovedAfterUpsert(s, ids, id, p);
      assert r == MovedRole(f, RoleRow(r.message, p, r.role));
    }
  }

  /** A colouring of the identifiers that is constant on each person. */
  ghost predicate Constant(s: Store, colour: Ident -> int) {
    forall i, j :: SamePerson(s, i, j) ==> colour(i) == colour(j)
  }

  lemma {:induction false} JoinedColour(s: Store, ids: seq<Ident>, colour: Ident -> int, i: Ident)
    requires Constant(s, colour) && Joined(s, ids, i)
    ensures exists k :: k in ids && colour(i) == colour(k)
  {
    if i !in ids {
      var k :| k in ids && k in s.identifiers && s.identifiers[k] == s.identifiers[i];
      assert SamePerson(s, i, k);
    }
  }

  /** It is the least such merge: anything that is constant on the people before and on the supplied
      identifiers is constant on the people after. */
  lemma {:induction false} UpsertOwnerIsLeast(s: Store, name: string, surname: Option<string>, ids: seq<Ident>,
                                              colour: Ident -> int)
    requires ForeignKeys(s) && UpsertOwner(s, name, surname, ids).Ok?
    requires Constant(s, colour) && forall i, j :: i in ids && j in ids ==> colour(i) == colour(j)
    ensures Constant(UpsertOwner(s, name, surname, ids).value.0, colour)
  {
    var t := UpsertOwner(s, name, surname, ids).value.0;
    UpsertOwnerJoins(s, name, surname, ids);
    forall i, j | SamePerson(t, i, j) ensures colour(i) == colour(j) {
      if Joined(s, ids, i) && Joined(s, ids, j) {
        JoinedColour(s, ids, colour, i);
        JoinedColour(s, ids, colour, j);
      } else if i != j {
        assert SamePerson(s, i, j);
      }
    }
  }

  lemma {:induction false} UpsertOwnerKeepsRefs(s: Store, name: string, surname: Option<string>, ids: seq<Ident>)
    requires ForeignKeys(s)
    requires UpsertOwner(s, name, surname, ids).Ok?
    ensures var (t, id) := UpsertOwner(s, name, surname, ids).value; ForeignKeys(t) && id in t.people
  {
    var (t, id) := UpsertOwner(s, name, surname, ids).value;
    var f := Collapse(Matched(s.identifiers, ids), id);
    UpsertMoves(s, name, surname, ids);
    forall p | p in s.people ensures Moved(f, p) in t.people {}
  }

  lemma {:induction false} UpsertOwnerKeepsValid(s: Store, name: string, surname: Option<string>, ids: seq<Ident>)
    requires Valid(s)
    requires UpsertOwner(s, name, surname, ids).Ok?
    ensures var (t, id) := UpsertOwner(s, name, surname, ids).value; Valid(t) && id in t.people
  {
    var (t, id) := UpsertOwner(s, name, surname, ids).value;
    var f := Collapse(Matched(s.identifiers, ids), id);
    UpsertMoves(s, name, surname, ids);
    MoveKeepsSender(s, f);
    MoveKeepsUnique(s, f);
    SameRolesSameSender(Quotient(s, f), t);
    assert UniqueKeys(t) by {
      assert t.accounts == Quotient(s, f).accounts && t.messages == Quotient(s, f).messages;
    }
    UpsertOwnerKeepsRefs(s, name, surname, ids);
  }

  // ---------------------------------------------------------------- accounts

  function AccountsNamed(accounts: map<nat, Account>, source: string, identifier: string): set<nat> {
    set a | a in accounts && accounts[a].source == source && accounts[a].identifier == identifier
  }

  /** `Storage.upsert_account`: an existing row is returned as it is. */
  function UpsertAccount(s: Store, account: Account): Result<(Store, nat)> {
    var found := AccountsNamed(s.accounts, account.source, account.identifier);
    if found != {} then Ok((s, MaxOf(found)))
    else if account.owner !in s.people then Err(ForeignKey)
    else
      var id := NextId(s.accounts.Keys);
      Ok((s.(accounts := s.accounts[id := account]), id))
  }

  ghost predicate HasAccount(s: Store, account: Account) {
    exists a :: a in s.accounts && SameAccount(s.accounts[a], account)
  }

  /** A row of that source and identifier is returned and everything left alone; otherwise the account is
      added as it is, when its owner exists. */
  lemma {:induction false} UpsertAccountIs(s: Store, account: Account)
    ensures var r := UpsertAccount(s, account);
            if HasAccount(s, account)
            then r.Ok? && r.value.0 == s && r.value.1 in s.accounts && SameAccount(s.accounts[r.value.1], account)
            else if account.owner !in s.people then r == Err(ForeignKey)
            else r.Ok? && r.value.1 !in s.accounts && r.value.0 == s.(accounts := s.accounts[r.value.1 := account])
  {
    var found := AccountsNamed(s.accounts, account.source, account.identifier);
    if a :| a in s.accounts && SameAccount(s.accounts[a], account) { assert a in found; }
    if found != {} { assert SameAccount(s.accounts[MaxOf(found)], account); }
  }

  lemma {:induction false} NewAccountIsUnique(s: Store, account: Account, id: nat)
    requires UniqueKeys(s) && id !in s.accounts
    requires AccountsNamed(s.accounts, account.source, account.identifier) == {}
    ensures UniqueKeys(s.(accounts := s.accounts[id := account]))
  {
    var t := s.(accounts := s.accounts[id := account]);
    forall a, b | a in t.accounts && b in t.accounts && SameAccount(t.accounts[a], t.accounts[b]) ensures a == b {
      assert a in s.accounts && SameAccount(s.accounts[a], account) ==>
          a in AccountsNamed(s.accounts, account.source, account.identifier);
      assert b in s.accounts && SameAccount(s.accounts[b], account) ==>
          b in AccountsNamed(s.accounts, account.source, account.identifier);
    }
    assert t.messages == s.messages;
  }

  lemma {:induction false} UpsertAccountKeepsValid(s: Store, account: Account)
    requires Valid(s)
    requires UpsertAccount(s, account).Ok?
    ensures var (t, id) := UpsertAccount(s, account).value;
            Valid(t) && id in t.accounts && SameAccount(t.accounts[id], account)
  {
    var (t, id) := UpsertAccount(s, account).value;
    SameRolesSameSender(s, t);
    if AccountsNamed(s.accounts, account.source, account.identifier) == {} {
      NewAccountIsUnique(s, account, id);
    }
  }
}
