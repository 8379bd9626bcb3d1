/** What `upsert_owner` does, read off the configured values: which rows, people and names it leaves for a
    list of (kind, value) pairs as they stand in the configuration file. */
module Owners {
  import opened Prelude
  import opened Schema
  import opened Identity

  /** `i` is one of the configured values, normalised by its kind. */
  ghost predicate Supplied(x: Library, raw: seq<RawIdent>, i: Ident) {
    exists r :: r in raw && i == Ident(r.kind, x.norm(r.kind, r.value))
  }

  /** Person `p` holds one of them. */
  ghost predicate Claimed(x: Library, s: Store, raw: seq<RawIdent>, p: nat) {
    exists i :: Supplied(x, raw, i) && i in s.identifiers && s.identifiers[i] == p
  }

  /** `i` is configured, or belongs to somebody who holds a configured one. */
  ghost predicate Affected(x: Library, s: Store, raw: seq<RawIdent>, i: Ident) {
    Supplied(x, raw, i) || (i in s.identifiers && Claimed(x, s, raw, s.identifiers[i]))
  }

  /** Every configured value resolves to `id`, no other identifier is new, and two identifiers are one person
      when they were before or the values connect them. */
  ghost predicate Joins(x: Library, s: Store, raw: seq<RawIdent>, t: Store, id: nat) {
    && (forall r :: r in raw ==> ResolvesTo(t, Ident(r.kind, x.norm(r.kind, r.value)), id))
    && (forall i :: i in t.identifiers <==> i in s.identifiers || Supplied(x, raw, i))
    && (forall i, j :: i in t.identifiers && j in t.identifiers ==>
          (SamePerson(t, i, j) <==>
            i == j || SamePerson(s, i, j) || (Affected(x, s, raw, i) && Affected(x, s, raw, j))))
  }

  /** The holders of the values are gone into `id`, who has the configured name and is an owner; everybody
      else is as before. */
  ghost predicate Renames(x: Library, s: Store, raw: seq<RawIdent>, t: Store, id: nat, row: Person) {
    && (forall p :: p in t.people <==> p == id || (p in s.people && !Claimed(x, s, raw, p)))
    && t.people[id] == row
    && (forall p :: p in t.people && p != id ==> t.people[p] == s.people[p])
  }

  /** Role row `r` is an old one whose person has gone where the upsert takes them. */
  ghost predicate RoleCarried(x: Library, s: Store, raw: seq<RawIdent>, id: nat, r: RoleRow) {
    exists p :: RoleRow(r.message, p, r.role) in s.roles && r.person == if Claimed(x, s, raw, p) then id else p
  }

  /** Accounts and message roles go with the people, and no other table changes. */
  ghost predicate Carries(x: Library, s: Store, raw: seq<RawIdent>, t: Store, id: nat) {
    && t.accounts.Keys == s.accounts.Keys
    && (forall a :: a in s.accounts ==>
          var owner := s.accounts[a].owner;
          t.accounts[a] == s.accounts[a].(owner := if Claimed(x, s, raw, owner) then id else owner))
    && (forall r :: r in t.roles <==> RoleCarried(x, s, raw, id, r))
    && t.messages == s.messages && t.attachments == s.attachments && t.blobs == s.blobs && t.status == s.status
  }

  /** The `k`-th value is the first that somebody holds. */
  ghost predicate FirstKnown(x: Library, s: Store, raw: seq<RawIdent>, k: nat) {
    && k < |raw| && Ident(raw[k].kind, x.norm(raw[k].kind, raw[k].value)) in s.identifiers
    && (forall h :: 0 <= h < k ==> Ident(raw[h].kind, x.norm(raw[h].kind, raw[h].value)) !in s.identifiers)
  }

  /** Who it becomes: the holder of the first known value, or somebody new when none is known. */
  ghost predicate Chooses(x: Library, s: Store, raw: seq<RawIdent>, id: nat) {
    && (forall k: nat :: FirstKnown(x, s, raw, k) ==>
          id == s.identifiers[Ident(raw[k].kind, x.norm(raw[k].kind, raw[k].value))])
    && ((forall i :: Supplied(x, raw, i) ==> i !in s.identifiers) ==> id !in s.people)
  }

  ghost predicate OwnerIs(x: Library, s: Store, raw: seq<RawIdent>, t: Store, id: nat, row: Person) {
    Joins(x, s, raw, t, id) && Renames(x, s, raw, t, id, row) && Carries(x, s, raw, t, id) && Chooses(x, s, raw, id)
  }

  /** Two of the values are one identifier. */
  ghost predicate Repeats(x: Library, raw: seq<RawIdent>) {
    exists a, b :: 0 <= a < b < |raw| && raw[a].kind == raw[b].kind
                   && x.norm(raw[a].kind, raw[a].value) == x.norm(raw[b].kind, raw[b].value)
  }

  /** The only failure: nobody holds any of the values, and one identifier is listed twice. */
  ghost predicate Fails(x: Library, s: Store, raw: seq<RawIdent>) {
    (forall i :: Supplied(x, raw, i) ==> i !in s.identifiers) && Repeats(x, raw)
  }

  // ---------------------------------------------------------------- from values to identifiers

  lemma {:induction false} SuppliedAre(x: Library, raw: seq<RawIdent>, i: Ident)
    ensures i in Idents(x, raw) <==> Supplied(x, raw, i)
  {
    var ids := Idents(x, raw);
    if i in ids {
      var k :| 0 <= k < |ids| && ids[k] == i;
      assert raw[k] in raw;
    }
    if r :| r in raw && i == Ident(r.kind, x.norm(r.kind, r.value)) {
      var k :| 0 <= k < |raw| && raw[k] == r;
      assert ids[k] == i;
    }
  }

  lemma {:induction false} ClaimedHolds(x: Library, s: Store, raw: seq<RawIdent>, p: nat)
    ensures Claimed(x, s, raw, p) <==> Identity.Holds(s, Idents(x, raw), p)
  {
    forall i ensures i in Idents(x, raw) <==> Supplied(x, raw, i) { SuppliedAre(x, raw, i); }
  }

  lemma {:induction false} AffectedJoined(x: Library, s: Store, raw: seq<RawIdent>, i: Ident)
    ensures Affected(x, s, raw, i) <==> Joined(s, Idents(x, raw), i)
  {
    SuppliedAre(x, raw, i);
    if i in s.identifiers { ClaimedHolds(x, s, raw, s.identifiers[i]); }
  }

  lemma {:induction false} RepeatsIff(x: Library, raw: seq<RawIdent>)
    ensures Repeats(x, raw) <==> !Distinct(Idents(x, raw))
  {
    var ids := Idents(x, raw);
    if a, b :| 0 <= a < b < |ids| && ids[a] == ids[b] {
      assert raw[a].kind == raw[b].kind;
    }
    if a, b :| 0 <= a < b < |raw| && raw[a].kind == raw[b].kind
               && x.norm(raw[a].kind, raw[a].value) == x.norm(raw[b].kind, raw[b].value) {
      assert ids[a] == ids[b];
    }
  }

  lemma {:induction false} NoMatch(identifiers: map<Ident, nat>, ids: seq<Ident>)
    requires forall h :: 0 <= h < |ids| ==> ids[h] !in identifiers
    ensures Matched(identifiers, ids) == []
    decreases |ids|
  {
    if ids != [] { NoMatch(identifiers, ids[..|ids| - 1]); }
  }

  lemma {:induction false} FirstMatch(identifiers: map<Ident, nat>, ids: seq<Ident>, k: nat)
    requires k < |ids| && ids[k] in identifiers && forall h :: 0 <= h < k ==> ids[h] !in identifiers
    ensures Matched(identifiers, ids) != [] && Matched(identifiers, ids)[0] == identifiers[ids[k]]
    decreases |ids|
  {
    var front := ids[..|ids| - 1];
    if k < |front| {
      FirstMatch(identifiers, front, k);
    } else {
      NoMatch(identifiers, front);
    }
  }

  // ---------------------------------------------------------------- what the upsert does

  lemma {:induction false} JoinsFrom(x: Library, s: Store, raw: seq<RawIdent>, ids: seq<Ident>, t: Store, id: nat)
    requires forall i :: (i in ids <==> Supplied(x, raw, i)) && (Joined(s, ids, i) <==> Affected(x, s, raw, i))
    requires id in t.people && (forall i :: i in t.identifiers <==> i in s.identifiers || i in ids)
    requires forall i :: i in ids ==> t.identifiers[i] == id
    requires forall i, j :: i in t.identifiers && j in t.identifiers ==>
               (SamePerson(t, i, j) <==> i == j || SamePerson(s, i, j) || (Joined(s, ids, i) && Joined(s, ids, j)))
    ensures Joins(x, s, raw, t, id)
  {
    forall r | r in raw ensures ResolvesTo(t, Ident(r.kind, x.norm(r.kind, r.value)), id) {
      assert Supplied(x, raw, Ident(r.kind, x.norm(r.kind, r.value)));
    }
  }

  lemma {:induction false} UpsertJoins(x: Library, s: Store, name: string, surname: Option<string>, raw: seq<RawIdent>,
                                       t: Store, id: nat)
    requires ForeignKeys(s) && UpsertOwner(s, name, surname, Idents(x, raw)) == Ok((t, id))
    ensures Joins(x, s, raw, t, id)
  {
    UpsertOwnerJoins(s, name, surname, Idents(x, raw));
    UpsertOwnerKeepsRefs(s, name, surname, Idents(x, raw));
    forall i
      ensures i in Idents(x, raw) <==> Supplied(x, raw, i)
      ensures Joined(s, Idents(x, raw), i) <==> Affected(x, s, raw, i)
    {
      SuppliedAre(x, raw, i);
      AffectedJoined(x, s, raw, i);
    }
    JoinsFrom(x, s, raw, Idents(x, raw), t, id);
  }

  lemma {:induction false} UpsertRenames(x: Library, s: Store, name: string, surname: Option<string>,
                                         raw: seq<RawIdent>, t: Store, id: nat)
    requires UpsertOwner(s, name, surname, Idents(x, raw)) == Ok((t, id))
    ensures Renames(x, s, raw, t, id, Person(name, surname, true))
  {
    UpsertOwnerCarries(s, name, surname, Idents(x, raw));
    forall p ensures Claimed(x, s, raw, p) <==> Identity.Holds(s, Idents(x, raw), p) { ClaimedHolds(x, s, raw, p); }
  }

  lemma {:induction false} UpsertCarriesRole(x: Library, s: Store, name: string, surname: Option<string>,
                                             raw: seq<RawIdent>, t: Store, id: nat, r: RoleRow)
    requires UpsertOwner(s, name, surname, Idents(x, raw)) == Ok((t, id))
    ensures r in t.roles <==> RoleCarried(x, s, raw, id, r)
  {
    UpsertOwnerCarriesRoles(s, name, surname, Idents(x, raw), r);
    forall p ensures Claimed(x, s, raw, p) <==> Identity.Holds(s, Idents(x, raw), p) { ClaimedHolds(x, s, raw, p); }
  }

  lemma {:induction false} UpsertCarries(x: Library, s: Store, name: string, surname: Option<string>,
                                         raw: seq<RawIdent>, t: Store, id: nat)
    requires UpsertOwner(s, name, surname, Idents(x, raw)) == Ok((t, id))
    ensures Carries(x, s, raw, t, id)
  {
    UpsertOwnerCarries(s, name, surname, Idents(x, raw));
    forall a | a in s.accounts { ClaimedHolds(x, s, raw, s.accounts[a].owner); }
    forall r ensures r in t.roles <==> RoleCarried(x, s, raw, id, r) {
      UpsertCarriesRole(x, s, name, surname, raw, t, id, r);
    }
  }

  lemma {:induction false} UpsertChooses(x: Library, s: Store, name: string, surname: Option<string>,
                                         raw: seq<RawIdent>, t: Store, id: nat)
    requires UpsertOwner(s, name, surname, Idents(x, raw)) == Ok((t, id))
    ensures Chooses(x, s, raw, id)
  {
    var ids := Idents(x, raw);
    forall k: nat | FirstKnown(x, s, raw, k) ensures id == s.identifiers[ids[k]] {
      FirstMatch(s.identifiers, ids, k);
    }
    if forall i :: Supplied(x, raw, i) ==> i !in s.identifiers {
      forall i | i in ids ensures i !in s.identifiers { SuppliedAre(x, raw, i); }
      assert Matched(s.identifiers, ids) == [];
    }
  }

  /** A successful upsert, for any configured values. */
  lemma {:induction false} UpsertOwnerIs(x: Library, s: Store, name: string, surname: Option<string>,
                                         raw: seq<RawIdent>, t: Store, id: nat)
    requires ForeignKeys(s) && UpsertOwner(s, name, surname, Idents(x, raw)) == Ok((t, id))
    ensures OwnerIs(x, s, raw, t, id, Person(name, surname, true))
  {
    UpsertJoins(x, s, name, surname, raw, t, id);
    UpsertRenames(x, s, name, surname, raw, t, id);
    UpsertCarries(x, s, name, surname, raw, t, id);
    UpsertChooses(x, s, name, surname, raw, t, id);
  }

  /** And exactly when it fails. */
  lemma {:induction false} UpsertFailsIff(x: Library, s: Store, name: string, surname: Option<string>,
                                          raw: seq<RawIdent>)
    ensures UpsertOwner(s, name, surname, Idents(x, raw)).Err? <==> Fails(x, s, raw)
    ensures UpsertOwner(s, name, surname, Idents(x, raw)).Err?
            ==> UpsertOwner(s, name, surname, Idents(x, raw)).error == UniqueKey
  {
    var m := Matched(s.identifiers, Idents(x, raw));
    RepeatsIff(x, raw);
    forall i ensures i in Idents(x, raw) <==> Supplied(x, raw, i) { SuppliedAre(x, raw, i); }
    if m != [] { assert m[0] in m; }
    if i :| Supplied(x, raw, i) && i in s.identifiers { assert s.identifiers[i] in m; }
  }
}
