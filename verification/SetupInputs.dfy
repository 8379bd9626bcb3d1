/** Two configurations that an empty database shows the failures of `setup` on. A lists `a`, B lists `b`
    and `c`; C lists `a` and `b`, which merges person 2 into person 1 while the dictionary goes on saying
    that `c` is person 2; D, if there is one, is given the freed id. */
module SetupInputs {
  import opened Prelude
  import opened Schema
  import opened Identity
  import opened Setup
  import opened SetupOwners

  const EMPTY := Store(map[], map[], map[], map[], {}, [], map[], map[])

  function Owner(name: string, values: seq<string>): OwnerEntry {
    OwnerEntry(name, None, seq(|values|, k requires 0 <= k < |values| => RawIdent(EmailKind, values[k])))
  }

  function Key(value: string): Ident {
    Ident(EmailKind, value)
  }

  function Keys(values: seq<string>): (ids: seq<Ident>)
    ensures |ids| == |values|
  {
    seq(|values|, k requires 0 <= k < |values| => Key(values[k]))
  }

  function Elems(values: seq<string>): set<string> {
    set v | v in values
  }

  /** Identifiers that normalisation and lower-casing leave alone. */
  ghost predicate Plain(x: Library, values: seq<string>) {
    forall k :: 0 <= k < |values| ==> x.norm(EmailKind, values[k]) == values[k] && x.lower(values[k]) == values[k]
  }

  lemma {:induction false} OwnerOf(x: Library, name: string, values: seq<string>)
    requires Plain(x, values)
    ensures OwnerIdents(x, Owner(name, values)) == Keys(values)
    ensures OwnerKeys(x, Owner(name, values)) == Elems(values)
  {
    var o := Owner(name, values);
    forall v | v in values ensures v in OwnerKeys(x, o) {
      var k :| 0 <= k < |values| && values[k] == v;
      assert o.identifiers[k] in o.identifiers;
    }
  }

  /** After `k` entries: people, identifiers and the dictionary. */
  ghost predicate At(x: Library, o: seq<OwnerEntry>, k: nat, people: set<nat>, identifiers: map<Ident, nat>,
                     ids: map<string, nat>)
    requires k <= |o|
  {
    var p := ApplyOwners(x, EMPTY, o[..k]);
    && p.error.None? && p.ownerIds == ids
    && p.store.people.Keys == people && p.store.identifiers == identifiers && p.store.accounts == map[]
  }

  lemma {:induction false} OneMore(x: Library, o: seq<OwnerEntry>, k: nat)
    requires k < |o| && ApplyOwners(x, EMPTY, o[..k]).error.None?
    ensures ApplyOwners(x, EMPTY, o[..k + 1]) == ApplyOwner(x, ApplyOwners(x, EMPTY, o[..k]), o[k])
  {
    assert o[..k + 1][..k] == o[..k];
  }

  lemma {:induction false} AddsPerson(x: Library, o: seq<OwnerEntry>, k: nat, name: string, values: seq<string>,
                                      people: set<nat>, identifiers: map<Ident, nat>, ids: map<string, nat>, id: nat)
    requires k < |o| && o[k] == Owner(name, values) && At(x, o, k, people, identifiers, ids)
    requires Plain(x, values) && Distinct(Keys(values))
    requires id == NextId(people) && forall i :: i in Keys(values) ==> i !in identifiers
    ensures At(x, o, k + 1, people + {id}, Attach(identifiers, Keys(values), id), ids + Learned(Elems(values), id))
  {
    OneMore(x, o, k);
    OwnerOf(x, name, values);
    assert Elements(Matched(identifiers, Keys(values))) == {};
  }

  lemma {:induction false} BothMatched(identifiers: map<Ident, nat>, i: Ident, j: Ident)
    requires i in identifiers && j in identifiers && identifiers[i] != identifiers[j]
    ensures Matched(identifiers, [i, j]) == [identifiers[i], identifiers[j]]
  {
    assert [i, j][..1] == [i] && [i][..0] == [];
    assert Matched(identifiers, []) == [];
    assert Matched(identifiers, [i]) == [identifiers[i]];
  }

  lemma {:induction false} JoinsPeople(s: Store, name: string, i: Ident, j: Ident, p: nat, q: nat)
    requires i in s.identifiers && j in s.identifiers && s.identifiers[i] == p && s.identifiers[j] == q && p != q
    requires s.accounts == map[]
    ensures var r := UpsertOwner(s, name, None, [i, j]);
            && r.Ok? && r.value.1 == p
            && r.value.0.people.Keys == s.people.Keys - {q} + {p}
            && r.value.0.identifiers == MovedIdents(map[q := p], s.identifiers) && r.value.0.accounts == map[]
  {
    BothMatched(s.identifiers, i, j);
    assert [p, q][1..] == [q];
    assert Collapse([q], p) == map[q := p];
    NothingToAttach(MovedIdents(map[q := p], s.identifiers), [i, j], p);
    assert MovedAccounts(map[q := p], s.accounts) == map[];
  }

  lemma {:induction false} NothingToAttach(identifiers: map<Ident, nat>, ids: seq<Ident>, p: nat)
    requires forall i :: i in ids ==> i in identifiers
    ensures Attach(identifiers, ids, p) == identifiers
  {
  }

  lemma {:induction false} JoinsTwo(x: Library, o: seq<OwnerEntry>, k: nat, name: string, a: string, b: string,
                                    people: set<nat>, identifiers: map<Ident, nat>, ids: map<string, nat>)
    requires k < |o| && o[k] == Owner(name, [a, b]) && At(x, o, k, people, identifiers, ids) && Plain(x, [a, b])
    requires Key(a) in identifiers && Key(b) in identifiers && identifiers[Key(a)] != identifiers[Key(b)]
    ensures var p, q := identifiers[Key(a)], identifiers[Key(b)];
            At(x, o, k + 1, people - {q} + {p}, MovedIdents(map[q := p], identifiers), ids + Learned(Elems([a, b]), p))
  {
    OneMore(x, o, k);
    OwnerOf(x, name, [a, b]);
    assert Keys([a, b]) == [Key(a), Key(b)];
    JoinsPeople(ApplyOwners(x, EMPTY, o[..k]).store, name, Key(a), Key(b), identifiers[Key(a)], identifiers[Key(b)]);
  }

  // ---------------------------------------------------------------- the entries, one after another

  ghost predicate Joining(o: seq<OwnerEntry>, a: string, b: string, c: string) {
    |o| >= 3 && o[0] == Owner("A", [a]) && o[1] == Owner("B", [b, c]) && o[2] == Owner("C", [a, b])
  }

  ghost predicate Usable(x: Library, a: string, b: string, c: string) {
    Plain(x, [a]) && Plain(x, [b, c]) && Plain(x, [a, b]) && a != b && a != c && b != c
  }

  lemma {:induction false} IdentifiersInTurn(a: string, b: string, c: string)
    requires a != b && a != c && b != c
    ensures Attach(map[], Keys([a]), 1) == map[Key(a) := 1]
    ensures Attach(map[Key(a) := 1], Keys([b, c]), 2) == map[Key(a) := 1, Key(b) := 2, Key(c) := 2]
    ensures MovedIdents(map[2 := 1], map[Key(a) := 1, Key(b) := 2, Key(c) := 2])
         == map[Key(a) := 1, Key(b) := 1, Key(c) := 1]
  {
    assert Keys([a]) == [Key(a)] && Keys([b, c]) == [Key(b), Key(c)];
  }

  lemma {:induction false} LearnedInTurn(a: string, b: string, c: string)
    requires a != b && a != c && b != c
    ensures map[] + Learned(Elems([a]), 1) == map[a := 1]
    ensures map[a := 1] + Learned(Elems([b, c]), 2) == map[a := 1, b := 2, c := 2]
    ensures map[a := 1, b := 2, c := 2] + Learned(Elems([a, b]), 1) == map[a := 1, b := 1, c := 2]
  {
    assert Elems([a]) == {a} && Elems([b, c]) == {b, c} && Elems([a, b]) == {a, b};
  }

  lemma {:induction false} AfterA(x: Library, o: seq<OwnerEntry>, a: string)
    requires o != [] && o[0] == Owner("A", [a]) && Plain(x, [a])
    requires Attach(map[], Keys([a]), 1) == map[Key(a) := 1] && map[] + Learned(Elems([a]), 1) == map[a := 1]
    ensures At(x, o, 1, {1}, map[Key(a) := 1], map[a := 1])
  {
    assert NextId({}) == 1 && o[..0] == [];
    AddsPerson(x, o, 0, "A", [a], {}, map[], map[], 1);
  }

  lemma {:induction false} TwoNewKeys(a: string, b: string, c: string)
    requires a != b && a != c && b != c
    ensures Distinct(Keys([b, c])) && forall i :: i in Keys([b, c]) ==> i !in map[Key(a) := 1]
  {
    assert Keys([b, c]) == [Key(b), Key(c)];
  }

  lemma {:induction false} AfterB(x: Library, o: seq<OwnerEntry>, a: string, b: string, c: string)
    requires Joining(o, a, b, c) && Usable(x, a, b, c)
    ensures At(x, o, 2, {1, 2}, map[Key(a) := 1, Key(b) := 2, Key(c) := 2], map[a := 1, b := 2, c := 2])
  {
    IdentifiersInTurn(a, b, c);
    LearnedInTurn(a, b, c);
    TwoNewKeys(a, b, c);
    AfterA(x, o, a);
    assert NextId({1}) == 2 && {1} + {2} == {1, 2};
    AddsPerson(x, o, 1, "B", [b, c], {1}, map[Key(a) := 1], map[a := 1], 2);
  }

  lemma {:induction false} AfterC(x: Library, o: seq<OwnerEntry>, a: string, b: string, c: string)
    requires Joining(o, a, b, c) && Usable(x, a, b, c)
    ensures At(x, o, 3, {1}, map[Key(a) := 1, Key(b) := 1, Key(c) := 1], map[a := 1, b := 1, c := 2])
  {
    AfterB(x, o, a, b, c);
    IdentifiersInTurn(a, b, c);
    LearnedInTurn(a, b, c);
    JoinsTwo(x, o, 2, "C", a, b, {1, 2}, map[Key(a) := 1, Key(b) := 2, Key(c) := 2], map[a := 1, b := 2, c := 2]);
    assert {1, 2} - {2} + {1} == {1};
  }

  lemma {:induction false} FourthKey(a: string, b: string, c: string, d: string)
    requires a != b && a != c && b != c && d !in {a, b, c}
    ensures var identifiers := map[Key(a) := 1, Key(b) := 1, Key(c) := 1];
            && Distinct(Keys([d])) && (forall i :: i in Keys([d]) ==> i !in identifiers)
            && Attach(identifiers, Keys([d]), 2) == map[Key(a) := 1, Key(b) := 1, Key(c) := 1, Key(d) := 2]
    ensures map[a := 1, b := 1, c := 2] + Learned(Elems([d]), 2) == map[a := 1, b := 1, c := 2, d := 2]
  {
    assert Keys([d]) == [Key(d)] && Elems([d]) == {d};
  }

  lemma {:induction false} AfterD(x: Library, o: seq<OwnerEntry>, a: string, b: string, c: string, d: string)
    requires Joining(o, a, b, c) && Usable(x, a, b, c)
    requires |o| == 4 && o[3] == Owner("D", [d]) && Plain(x, [d]) && d !in {a, b, c}
    ensures At(x, o, 4, {1, 2}, map[Key(a) := 1, Key(b) := 1, Key(c) := 1, Key(d) := 2],
               map[a := 1, b := 1, c := 2, d := 2])
  {
    AfterC(x, o, a, b, c);
    FourthKey(a, b, c, d);
    assert NextId({1}) == 2 && {1} + {2} == {1, 2};
    AddsPerson(x, o, 3, "D", [d], {1}, map[Key(a) := 1, Key(b) := 1, Key(c) := 1], map[a := 1, b := 1, c := 2], 2);
  }

  // ---------------------------------------------------------------- what becomes of the account

  function Inbox(owner: string): seq<PluginEntry> {
    [PluginEntry("mail", true, [AccountEntry("inbox", owner, None, None)])]
  }

  lemma {:induction false} InboxFor(x: Library, p: Progress, c: string)
    requires p.error.None? && p.store.accounts == map[] && x.lower(c) == c && c in p.ownerIds
    ensures var q := ApplyPlugins(x, p, Inbox(c));
            if p.ownerIds[c] !in p.store.people then q.error == Some(ForeignKey)
            else q == p.(store := p.store.(accounts := map[1 := Account(p.ownerIds[c], "mail", "inbox", None)]))
  {
    OneAccount(x, p, "mail", AccountEntry("inbox", c, None, None));
    assert NextId({}) == 1;
    assert AccountsNamed(map[], "mail", "inbox") == {};
  }

  /** Three entries: the account declared for `c` makes setup fail, because nobody is person 2. */
  lemma {:induction false} AccountIsRefused(x: Library, o: seq<OwnerEntry>, a: string, b: string, c: string)
    requires Joining(o, a, b, c) && |o| == 3 && Usable(x, a, b, c)
    ensures ApplyOwners(x, EMPTY, o).error.None?
    ensures Apply(x, EMPTY, Config(o, Inbox(c))).error == Some(ForeignKey)
  {
    AfterC(x, o, a, b, c);
    assert o[..3] == o && [b, c][1] == c;
    InboxFor(x, ApplyOwners(x, EMPTY, o), c);
  }

  /** Four entries: the account declared for `c` goes to person 2, who has only `d`, while `c` belongs to
      person 1. */
  lemma {:induction false} AccountGoesToStranger(x: Library, o: seq<OwnerEntry>, a: string, b: string, c: string,
                                                 d: string)
    requires Joining(o, a, b, c) && Usable(x, a, b, c)
    requires |o| == 4 && o[3] == Owner("D", [d]) && Plain(x, [d]) && d !in {a, b, c}
    ensures var cfg := Config(o, Inbox(c));
            var p := Apply(x, EMPTY, cfg);
            && p.error.None?
            && p.store.accounts == map[1 := Account(2, "mail", "inbox", None)]
            && p.store.identifiers == map[Key(a) := 1, Key(b) := 1, Key(c) := 1, Key(d) := 2]
            && !GoesToOwner(x, p.store, cfg, p.store.accounts[1])
  {
    AfterD(x, o, a, b, c, d);
    assert o[..4] == o && [b, c][1] == c;
    InboxFor(x, ApplyOwners(x, EMPTY, o), c);
    OnlyEntryForC(x, Apply(x, EMPTY, Config(o, Inbox(c))).store, o, a, b, c, d);
  }

  /** Of the four entries only B lists `c`, and it stands for person 1. */
  lemma {:induction false} OnlyEntryForC(x: Library, t: Store, o: seq<OwnerEntry>, a: string, b: string, c: string,
                                         d: string)
    requires Joining(o, a, b, c) && Usable(x, a, b, c)
    requires |o| == 4 && o[3] == Owner("D", [d]) && Plain(x, [d]) && d !in {a, b, c}
    requires t.identifiers == map[Key(a) := 1, Key(b) := 1, Key(c) := 1, Key(d) := 2]
    ensures !Right(x, t, o, c, 2)
  {
    OwnerOf(x, "A", [a]);
    OwnerOf(x, "B", [b, c]);
    OwnerOf(x, "C", [a, b]);
    OwnerOf(x, "D", [d]);
  }
}
