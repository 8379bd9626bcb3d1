/** One person across sources: a correspondent of mail or iMessage and an owner entry of the configuration
    that lists their address or handle are the same person, in whichever order they come. */
module CrossSource {
  import opened Prelude
  import opened Schema
  import opened Identity
  import opened Owners
  import opened Saving
  import opened History
  import opened Stored
  import opened Lasting
  import opened Setup

  /** Every value of the entry is `p`. */
  ghost predicate IsEntry(x: Library, t: Store, o: OwnerEntry, p: nat) {
    forall r :: r in o.identifiers ==> ResolvesTo(t, Ident(r.kind, x.norm(r.kind, r.value)), p)
  }

  /** The entry lists the address of the mail's sender, in whatever spelling normalises to the same. */
  predicate ListsSender(x: Library, o: OwnerEntry, m: EmailMessage) {
    exists r :: r in o.identifiers && r.kind == EmailKind
                && x.norm(EmailKind, r.value) == x.norm(EmailKind, x.splitAddress(m.fromAddress).0)
  }

  predicate ListsHandle(x: Library, o: OwnerEntry, m: Saving.IMessage) {
    exists r :: r in o.identifiers && r.kind == x.handleKind(m.senderHandle)
                && x.norm(r.kind, r.value) == x.norm(r.kind, m.senderHandle)
  }

  /** The one sender of message `id` is who the entry stands for. */
  ghost predicate FromOwner(x: Library, t: Store, id: nat, o: OwnerEntry) {
    exists p :: IsEntry(x, t, o, p) && forall q :: IsSender(t, id, q) <==> q == p
  }

  /** `i` is the identifier the message came from. */
  ghost predicate CameFromIdent(ps: seq<Party>, i: Ident) {
    forall j :: Brings(ps, From, j) <==> j == i
  }

  lemma {:induction false} MailCameFrom(x: Library, m: EmailMessage)
    ensures CameFromIdent(FromEmail(x, m).parties, Ident(EmailKind, x.norm(EmailKind, x.splitAddress(m.fromAddress).0)))
  {
    forall j
      ensures Brings(FromEmail(x, m).parties, From, j)
         <==> j == Ident(EmailKind, x.norm(EmailKind, x.splitAddress(m.fromAddress).0))
    {
      MailBrings(x, m, From, j);
      assert m.fromAddress in Header(m, From);
    }
  }

  lemma {:induction false} ChatCameFrom(x: Library, m: Saving.IMessage)
    ensures CameFromIdent(FromIMessage(x, m).parties,
                          Ident(x.handleKind(m.senderHandle), x.norm(x.handleKind(m.senderHandle), m.senderHandle)))
  {
    forall j
      ensures Brings(FromIMessage(x, m).parties, From, j)
         <==> j == Ident(x.handleKind(m.senderHandle), x.norm(x.handleKind(m.senderHandle), m.senderHandle))
    {
      ChatBrings(x, m, From, j);
      assert m.senderHandle in Handles(m, From);
    }
  }

  lemma {:induction false} HolderIsSender(t: Store, ps: seq<Party>, id: nat, i: Ident, p: nat)
    requires RolesFollow(t, ps, id) && CameFromIdent(ps, i) && ResolvesTo(t, i, p)
    ensures forall q :: IsSender(t, id, q) <==> q == p
  {
    forall q ensures IsSender(t, id, q) <==> q == p {
      assert RoleRow(id, q, From) in t.roles <==> Stands(t, ps, RoleRow(id, q, From));
      assert Brings(ps, From, i);
    }
  }

  lemma {:induction false} SenderIsOwner(x: Library, t: Store, ps: seq<Party>, id: nat, i: Ident, o: OwnerEntry, p: nat)
    requires RolesFollow(t, ps, id) && CameFromIdent(ps, i) && Supplied(x, o.identifiers, i) && IsEntry(x, t, o, p)
    ensures FromOwner(x, t, id, o)
  {
    HolderIsSender(t, ps, id, i, p);
  }

  // ---------------------------------------------------------------- entries in histories

  lemma {:induction false} EntryFollows(x: Library, s: Store, t: Store, f: nat -> nat, o: OwnerEntry, p: nat)
    requires Follows(s, t, f) && ForeignKeys(t) && IsEntry(x, s, o, p)
    ensures IsEntry(x, t, o, f(p))
  {
    forall r | r in o.identifiers ensures ResolvesTo(t, Ident(r.kind, x.norm(r.kind, r.value)), f(p)) {
      assert ResolvesTo(s, Ident(r.kind, x.norm(r.kind, r.value)), p);
    }
  }

  /** Whatever happens, the values of an applied entry stay one person. */
  lemma {:induction false} EntryLasts(x: Library, s: Store, steps: seq<Step>, o: OwnerEntry, p: nat) returns (q: nat)
    requires Valid(s) && AllWellFormed(steps) && IsEntry(x, s, o, p)
    ensures IsEntry(x, Run(x, s, steps), o, q)
    decreases |steps|
  {
    q := p;
    if steps != [] {
      var u := Run(x, s, steps[..|steps| - 1]);
      var q' := EntryLasts(x, s, steps[..|steps| - 1], o, p);
      IntegrityHolds(x, s, steps);
      IntegrityHolds(x, s, steps[..|steps| - 1]);
      var f := StepFollows(x, u, steps[|steps| - 1]);
      EntryFollows(x, u, Run(x, s, steps), f, o, q');
      q := f(q');
    }
  }

  /** The tables after one owner entry is applied, from any dictionary. */
  ghost predicate Applied(x: Library, s: Store, o: OwnerEntry, t: Store) {
    ApplyOwner(x, Progress(s, map[], None), o).error.None? && ApplyOwner(x, Progress(s, map[], None), o).store == t
  }

  lemma {:induction false} AppliedIsEntry(x: Library, s: Store, o: OwnerEntry, t: Store) returns (id: nat)
    requires Valid(s) && Applied(x, s, o, t)
    ensures Valid(t) && IsEntry(x, t, o, id) && id in t.people && t.people[id] == Person(o.name, o.surname, true)
  {
    id := ApplyOwnerIs(x, Progress(s, map[], None), o);
    UpsertOwnerKeepsValid(s, o.name, o.surname, OwnerIdents(x, o));
  }

  lemma {:induction false} AppliedUpserts(x: Library, s: Store, o: OwnerEntry, t: Store) returns (id: nat)
    requires Applied(x, s, o, t)
    ensures UpsertOwner(s, o.name, o.surname, OwnerIdents(x, o)) == Ok((t, id))
  {
    id := UpsertOwner(s, o.name, o.surname, OwnerIdents(x, o)).value.1;
  }

  lemma {:induction false} OneStep(x: Library, s: Store, step: Step)
    requires WellFormed(step)
    ensures Leads(x, s, [step], Exec(x, s, step))
  {
    assert [step][..0] == [];
  }

  lemma {:induction false} OwnerStep(x: Library, s: Store, name: string, surname: Option<string>, ids: seq<Ident>,
                                     t: Store, id: nat)
    requires UpsertOwner(s, name, surname, ids) == Ok((t, id))
    ensures Exec(x, s, Owner(name, surname, ids)) == t
  {
  }

  /** `t` comes from `s` by some steps. */
  ghost predicate Later(x: Library, s: Store, t: Store) {
    exists steps: seq<Step> :: Leads(x, s, steps, t)
  }

  lemma {:induction false} LaterStill(x: Library, s: Store, t: Store, u: Store)
    requires Later(x, s, t) && Later(x, t, u)
    ensures Later(x, s, u)
  {
    var a: seq<Step> :| Leads(x, s, a, t);
    var b: seq<Step> :| Leads(x, t, b, u);
    LeadsOn(x, s, a, t, b, u);
  }

  lemma {:induction false} LaterByOwner(x: Library, s: Store, o: OwnerEntry, t: Store)
    requires Applied(x, s, o, t)
    ensures Later(x, s, t)
  {
    var id := AppliedUpserts(x, s, o, t);
    OwnerStep(x, s, o.name, o.surname, OwnerIdents(x, o), t, id);
    OneStep(x, s, Owner(o.name, o.surname, OwnerIdents(x, o)));
  }

  lemma {:induction false} LaterBySave(x: Library, s: Store, m: Incoming)
    requires OneFrom(m)
    ensures Later(x, s, SaveMessage(x, s, m).0)
  {
    SaveIsItsSteps(x, s, m);
    assert Leads(x, s, SaveSteps(x, s, m), SaveMessage(x, s, m).0);
  }

  lemma {:induction false} LaterIsValid(x: Library, s: Store, t: Store)
    requires Valid(s) && Later(x, s, t)
    ensures Valid(t)
  {
    var steps: seq<Step> :| Leads(x, s, steps, t);
    IntegrityHolds(x, s, steps);
  }

  // ---------------------------------------------------------------- owners and their messages

  lemma {:induction false} RolesLast(x: Library, s: Store, m: Incoming, t: Store)
    requires Valid(s) && OneFrom(m) && SaveMessage(x, s, m).1.Inserted? && Later(x, SaveMessage(x, s, m).0, t)
    ensures RolesFollow(t, m.parties, SaveMessage(x, s, m).1.id)
  {
    var (saved, o) := SaveMessage(x, s, m);
    var steps: seq<Step> :| Leads(x, saved, steps, t);
    SaveKeepsValid(x, s, m);
    SaveRolesFollow(x, s, m);
    RolesAlwaysFollow(x, saved, steps, m.parties, o.id);
  }

  lemma {:induction false} SavedThenOwner(x: Library, s: Store, m: Incoming, i: Ident, u: Store, o: OwnerEntry,
                                          v: Store, t: Store)
    requires Valid(s) && OneFrom(m) && SaveMessage(x, s, m).1.Inserted?
    requires CameFromIdent(m.parties, i) && Supplied(x, o.identifiers, i)
    requires Later(x, SaveMessage(x, s, m).0, u) && Applied(x, u, o, v) && Later(x, v, t)
    ensures FromOwner(x, t, SaveMessage(x, s, m).1.id, o)
  {
    var (saved, done) := SaveMessage(x, s, m);
    SaveKeepsValid(x, s, m);
    LaterIsValid(x, saved, u);
    var id := AppliedIsEntry(x, u, o, v);
    LaterByOwner(x, u, o, v);
    LaterStill(x, saved, u, v);
    LaterStill(x, saved, v, t);
    RolesLast(x, s, m, t);
    var after: seq<Step> :| Leads(x, v, after, t);
    var q := EntryLasts(x, v, after, o, id);
    SenderIsOwner(x, t, m.parties, done.id, i, o, q);
  }

  lemma {:induction false} OwnerThenSaved(x: Library, u: Store, o: OwnerEntry, v: Store, s: Store, m: Incoming,
                                          i: Ident, t: Store)
    requires Valid(u) && Applied(x, u, o, v) && Later(x, v, s) && OneFrom(m) && SaveMessage(x, s, m).1.Inserted?
    requires CameFromIdent(m.parties, i) && Supplied(x, o.identifiers, i)
    requires Later(x, SaveMessage(x, s, m).0, t)
    ensures FromOwner(x, t, SaveMessage(x, s, m).1.id, o)
  {
    var (saved, done) := SaveMessage(x, s, m);
    var id := AppliedIsEntry(x, u, o, v);
    LaterIsValid(x, v, s);
    LaterBySave(x, s, m);
    LaterStill(x, v, s, saved);
    LaterStill(x, v, saved, t);
    RolesLast(x, s, m, t);
    var all: seq<Step> :| Leads(x, v, all, t);
    var q := EntryLasts(x, v, all, o, id);
    SenderIsOwner(x, t, m.parties, done.id, i, o, q);
  }

  /** A mail whose sender an owner entry lists is from that owner once the entry is applied, whatever
      happens before, between and after. */
  lemma {:induction false} MailThenOwner(x: Library, s: Store, m: EmailMessage, u: Store, o: OwnerEntry, v: Store,
                                         t: Store)
    requires Valid(s) && SaveMessage(x, s, FromEmail(x, m)).1.Inserted? && ListsSender(x, o, m)
    requires Later(x, SaveMessage(x, s, FromEmail(x, m)).0, u) && Applied(x, u, o, v) && Later(x, v, t)
    ensures FromOwner(x, t, SaveMessage(x, s, FromEmail(x, m)).1.id, o)
  {
    MailCameFrom(x, m);
    SavedThenOwner(x, s, FromEmail(x, m), Ident(EmailKind, x.norm(EmailKind, x.splitAddress(m.fromAddress).0)), u, o, v,
                   t);
  }

  /** And so it is when the mail comes after the entry. */
  lemma {:induction false} OwnerThenMail(x: Library, u: Store, o: OwnerEntry, v: Store, s: Store, m: EmailMessage,
                                         t: Store)
    requires Valid(u) && Applied(x, u, o, v) && Later(x, v, s)
    requires SaveMessage(x, s, FromEmail(x, m)).1.Inserted? && ListsSender(x, o, m)
    requires Later(x, SaveMessage(x, s, FromEmail(x, m)).0, t)
    ensures FromOwner(x, t, SaveMessage(x, s, FromEmail(x, m)).1.id, o)
  {
    MailCameFrom(x, m);
    OwnerThenSaved(x, u, o, v, s, FromEmail(x, m),
                   Ident(EmailKind, x.norm(EmailKind, x.splitAddress(m.fromAddress).0)), t);
  }

  /** The same for the sender's handle of an iMessage. */
  lemma {:induction false} ChatThenOwner(x: Library, s: Store, m: Saving.IMessage, u: Store, o: OwnerEntry, v: Store,
                                         t: Store)
    requires Valid(s) && SaveMessage(x, s, FromIMessage(x, m)).1.Inserted? && ListsHandle(x, o, m)
    requires Later(x, SaveMessage(x, s, FromIMessage(x, m)).0, u) && Applied(x, u, o, v) && Later(x, v, t)
    ensures FromOwner(x, t, SaveMessage(x, s, FromIMessage(x, m)).1.id, o)
  {
    var kind := x.handleKind(m.senderHandle);
    ChatCameFrom(x, m);
    SavedThenOwner(x, s, FromIMessage(x, m), Ident(kind, x.norm(kind, m.senderHandle)), u, o, v, t);
  }

  lemma {:induction false} OwnerThenChat(x: Library, u: Store, o: OwnerEntry, v: Store, s: Store, m: Saving.IMessage,
                                         t: Store)
    requires Valid(u) && Applied(x, u, o, v) && Later(x, v, s)
    requires SaveMessage(x, s, FromIMessage(x, m)).1.Inserted? && ListsHandle(x, o, m)
    requires Later(x, SaveMessage(x, s, FromIMessage(x, m)).0, t)
    ensures FromOwner(x, t, SaveMessage(x, s, FromIMessage(x, m)).1.id, o)
  {
    var kind := x.handleKind(m.senderHandle);
    ChatCameFrom(x, m);
    OwnerThenSaved(x, u, o, v, s, FromIMessage(x, m), Ident(kind, x.norm(kind, m.senderHandle)), t);
  }

  // ---------------------------------------------------------------- two correspondents

  /** Saving a mail and then an iMessage makes their senders one person if and only if their identifiers are
      equal or were one person before. */
  lemma {:induction false} SendersAreOneIff(x: Library, s: Store, m: EmailMessage, c: Saving.IMessage, p: nat, q: nat)
    requires Valid(s) && SaveMessage(x, s, FromEmail(x, m)).1.Inserted?
    requires var t := SaveMessage(x, s, FromEmail(x, m)).0;
             var (u, o) := SaveMessage(x, t, FromIMessage(x, c));
             o.Inserted? && IsSender(u, SaveMessage(x, s, FromEmail(x, m)).1.id, p) && IsSender(u, o.id, q)
    ensures var i := Ident(EmailKind, x.norm(EmailKind, x.splitAddress(m.fromAddress).0));
            var j := Ident(x.handleKind(c.senderHandle), x.norm(x.handleKind(c.senderHandle), c.senderHandle));
            p == q <==> i == j || SamePerson(s, i, j)
  {
    var i := Ident(EmailKind, x.norm(EmailKind, x.splitAddress(m.fromAddress).0));
    var j := Ident(x.handleKind(c.senderHandle), x.norm(x.handleKind(c.senderHandle), c.senderHandle));
    var (t, a) := SaveMessage(x, s, FromEmail(x, m));
    var (u, b) := SaveMessage(x, t, FromIMessage(x, c));
    SaveKeepsValid(x, s, FromEmail(x, m));
    SaveDecides(x, s, FromEmail(x, m));
    SaveDecides(x, t, FromIMessage(x, c));
    PartitionThrough(s, t, u);
    LaterBySave(x, t, FromIMessage(x, c));
    RolesLast(x, s, FromEmail(x, m), u);
    SaveRolesFollow(x, t, FromIMessage(x, c));
    MailCameFrom(x, m);
    ChatCameFrom(x, c);
    SenderHolds(u, FromEmail(x, m).parties, a.id, i, p);
    SenderHolds(u, FromIMessage(x, c).parties, b.id, j, q);
  }

  lemma {:induction false} SenderHolds(t: Store, ps: seq<Party>, id: nat, i: Ident, p: nat)
    requires RolesFollow(t, ps, id) && CameFromIdent(ps, i) && IsSender(t, id, p)
    ensures ResolvesTo(t, i, p)
  {
    assert Stands(t, ps, RoleRow(id, p, From));
  }
}
