/** What has been stored of a message stays, in any history: its row, its files, and in each role the people
    who hold the identifiers it came with, whatever is merged. */
module Lasting {
  import opened Prelude
  import opened Schema
  import opened Identity
  import opened Saving
  import opened History
  import opened Stored

  /** From `s` to `t` each person has gone where `f` says: every identifier of `s` and every role of its
      messages is now that of `f` of who it was. */
  ghost predicate Follows(s: Store, t: Store, f: nat -> nat) {
    && s.messages.Keys <= t.messages.Keys
    && (forall i :: i in s.identifiers ==> i in t.identifiers && t.identifiers[i] == f(s.identifiers[i]))
    && (forall r: RoleRow :: r.message in s.messages ==> (r in t.roles <==> CameFrom(s, f, r)))
  }

  ghost predicate CameFrom(s: Store, f: nat -> nat, r: RoleRow) {
    exists p :: RoleRow(r.message, p, r.role) in s.roles && r.person == f(p)
  }

  lemma {:induction false} NobodyMoves(s: Store, t: Store) returns (f: nat -> nat)
    requires s.messages.Keys <= t.messages.Keys
    requires forall i :: i in s.identifiers ==> i in t.identifiers && t.identifiers[i] == s.identifiers[i]
    requires forall r: RoleRow :: r.message in s.messages ==> (r in t.roles <==> r in s.roles)
    ensures Follows(s, t, f)
  {
    f := (p: nat) => p;
    forall r: RoleRow | r.message in s.messages ensures r in t.roles <==> CameFrom(s, f, r) {
      assert r == RoleRow(r.message, r.person, r.role);
    }
  }

  lemma {:induction false} InsertFollows(x: Library, s: Store, m: Incoming, pids: seq<nat>) returns (f: nat -> nat)
    requires Valid(s) && |pids| == |m.parties|
    ensures Follows(s, InsertMessage(x, s, m, pids).0, f)
  {
    var (t, o) := InsertMessage(x, s, m, pids);
    if o.Inserted? { InsertStores(x, s, m, pids); }
    f := NobodyMoves(s, t);
  }

  lemma {:induction false} MoveFollows(s: Store, g: map<nat, nat>) returns (f: nat -> nat)
    ensures Follows(s, Quotient(s, g), f)
  {
    f := (p: nat) => Moved(g, p);
    forall r: RoleRow ensures r in MovedRoles(g, s.roles) <==> CameFrom(s, f, r) {
      if r in MovedRoles(g, s.roles) {
        var o :| o in s.roles && r == MovedRole(g, o);
        assert o == RoleRow(r.message, o.person, r.role);
      }
      if p :| RoleRow(r.message, p, r.role) in s.roles && r.person == f(p) {
        assert r == MovedRole(g, RoleRow(r.message, p, r.role));
      }
    }
  }

  lemma {:induction false} OwnerFollows(s: Store, name: string, surname: Option<string>, ids: seq<Ident>)
      returns (f: nat -> nat)
    requires ForeignKeys(s) && UpsertOwner(s, name, surname, ids).Ok?
    ensures Follows(s, UpsertOwner(s, name, surname, ids).value.0, f)
  {
    var (t, id) := UpsertOwner(s, name, surname, ids).value;
    f := MoveFollows(s, Collapse(Matched(s.identifiers, ids), id));
    UpsertMoves(s, name, surname, ids);
    UpsertOwnerJoins(s, name, surname, ids);
  }

  lemma {:induction false} QuietStep(x: Library, s: Store, step: Step)
    requires WellFormed(step) && !step.Insert?
    requires step.Merge? ==> MergePeople(s, step.keep, step.discard).Err?
    requires step.Owner? ==> UpsertOwner(s, step.name, step.surname, step.ids).Err?
    ensures var t := Exec(x, s, step);
            && t.messages == s.messages && t.roles == s.roles
            && (forall i :: i in s.identifiers ==> i in t.identifiers && t.identifiers[i] == s.identifiers[i])
  {
  }

  lemma {:induction false} StepFollows(x: Library, s: Store, step: Step) returns (f: nat -> nat)
    requires Valid(s) && WellFormed(step)
    ensures Follows(s, Exec(x, s, step), f)
  {
    if step.Insert? {
      f := InsertFollows(x, s, step.m, step.pids);
    } else if step.Merge? && MergePeople(s, step.keep, step.discard).Ok? {
      f := MoveFollows(s, map[step.discard := step.keep]);
    } else if step.Owner? && UpsertOwner(s, step.name, step.surname, step.ids).Ok? {
      f := OwnerFollows(s, step.name, step.surname, step.ids);
    } else {
      QuietStep(x, s, step);
      f := NobodyMoves(s, Exec(x, s, step));
    }
  }

  lemma {:induction false} StandsAfter(s: Store, t: Store, f: nat -> nat, ps: seq<Party>, id: nat, r: RoleRow)
    requires ForeignKeys(s) && ForeignKeys(t) && Follows(s, t, f) && RolesFollow(s, ps, id) && r.message == id
    ensures r in t.roles <==> Stands(t, ps, r)
  {
    if CameFrom(s, f, r) {
      var p :| RoleRow(r.message, p, r.role) in s.roles && r.person == f(p);
      assert Stands(s, ps, RoleRow(r.message, p, r.role));
    }
    if i :| Brings(ps, r.role, i) && ResolvesTo(t, i, r.person) {
      var p := s.identifiers[i];
      assert ResolvesTo(s, i, p);
      assert Stands(s, ps, RoleRow(r.message, p, r.role));
    }
  }

  lemma {:induction false} RolesStillFollow(s: Store, t: Store, f: nat -> nat, ps: seq<Party>, id: nat)
    requires ForeignKeys(s) && ForeignKeys(t) && Follows(s, t, f) && RolesFollow(s, ps, id)
    ensures RolesFollow(t, ps, id)
  {
    forall r: RoleRow | r.message == id ensures r in t.roles <==> Stands(t, ps, r) {
      StandsAfter(s, t, f, ps, id, r);
    }
  }

  /** Whatever is merged, added or saved: a message's roles are always those of the people who hold its
      parties' identifiers. */
  lemma {:induction false} RolesAlwaysFollow(x: Library, s: Store, steps: seq<Step>, ps: seq<Party>, id: nat)
    requires Valid(s) && AllWellFormed(steps) && RolesFollow(s, ps, id)
    ensures Valid(Run(x, s, steps)) && RolesFollow(Run(x, s, steps), ps, id)
    decreases |steps|
  {
    IntegrityHolds(x, s, steps);
    if steps != [] {
      var u := Run(x, s, steps[..|steps| - 1]);
      RolesAlwaysFollow(x, s, steps[..|steps| - 1], ps, id);
      var f := StepFollows(x, u, steps[|steps| - 1]);
      RolesStillFollow(u, Run(x, s, steps), f, ps, id);
    }
  }

  // ---------------------------------------------------------------- rows and files

  /** Message rows stay as they are, and attachment rows are only appended. */
  ghost predicate OnlyAppends(s: Store, t: Store) {
    && (forall m :: m in s.messages ==> m in t.messages && t.messages[m] == s.messages[m])
    && |s.attachments| <= |t.attachments|
    && (forall k :: 0 <= k < |s.attachments| ==> t.attachments[k] == s.attachments[k])
  }

  lemma {:induction false} StepAppends(x: Library, s: Store, step: Step)
    requires ForeignKeys(s) && WellFormed(step)
    ensures OnlyAppends(s, Exec(x, s, step))
  {
    if step.Insert? && InsertMessage(x, s, step.m, step.pids).1.Inserted? {
      InsertStores(x, s, step.m, step.pids);
      assert forall k :: 0 <= k < |s.attachments| ==>
          Exec(x, s, step).attachments[..|s.attachments|][k] == Exec(x, s, step).attachments[k];
    }
    if step.Owner? && UpsertOwner(s, step.name, step.surname, step.ids).Ok? {
      UpsertOwnerCarries(s, step.name, step.surname, step.ids);
    }
  }

  lemma {:induction false} RunAppends(x: Library, s: Store, steps: seq<Step>)
    requires Valid(s) && AllWellFormed(steps)
    ensures OnlyAppends(s, Run(x, s, steps))
    decreases |steps|
  {
    if steps != [] {
      RunAppends(x, s, steps[..|steps| - 1]);
      IntegrityHolds(x, s, steps[..|steps| - 1]);
      StepAppends(x, Run(x, s, steps[..|steps| - 1]), steps[|steps| - 1]);
    }
  }

  // ---------------------------------------------------------------- a mail and an iMessage, ever after

  /** The mail stands under `id`, with its files from attachment row `n` on and the present holders of its
      addresses in their roles. */
  ghost predicate MailStands(x: Library, t: Store, m: EmailMessage, source: string, id: nat, n: nat) {
    && id in t.messages && IsMail(t.messages[id], m, source) && FilesAt(x, t.attachments, n, id, m.blobs)
    && MailRoles(x, t, m, id)
  }

  ghost predicate ChatStands(x: Library, t: Store, m: Saving.IMessage, source: string, id: nat, n: nat) {
    && id in t.messages && IsChat(t.messages[id], m, source) && FilesAt(x, t.attachments, n, id, m.blobs)
    && ChatRoles(x, t, m, id)
  }

  lemma {:induction false} FilesStay(x: Library, s: Store, t: Store, n: nat, id: nat, blobs: seq<Blob>)
    requires OnlyAppends(s, t) && FilesAt(x, s.attachments, n, id, blobs)
    ensures FilesAt(x, t.attachments, n, id, blobs)
  {
  }

  /** A stored mail stands in every history that follows. */
  lemma {:induction false} MailLasts(x: Library, s: Store, m: EmailMessage, steps: seq<Step>)
    requires Valid(s) && AllWellFormed(steps) && SaveMessage(x, s, FromEmail(x, m)).1.Inserted?
    ensures m.account in s.accounts
    ensures var (t, o) := SaveMessage(x, s, FromEmail(x, m));
            MailStands(x, Run(x, t, steps), m, s.accounts[m.account].source, o.id, |s.attachments|)
  {
    var (t, o) := SaveMessage(x, s, FromEmail(x, m));
    SaveEmailAdds(x, s, m);
    SaveKeepsValid(x, s, FromEmail(x, m));
    SaveRolesFollow(x, s, FromEmail(x, m));
    RolesAlwaysFollow(x, t, steps, FromEmail(x, m).parties, o.id);
    FollowedByMail(x, Run(x, t, steps), m, o.id);
    RunAppends(x, t, steps);
    FilesStay(x, t, Run(x, t, steps), |s.attachments|, o.id, m.blobs);
  }

  lemma {:induction false} ChatLasts(x: Library, s: Store, m: Saving.IMessage, steps: seq<Step>)
    requires Valid(s) && AllWellFormed(steps) && SaveMessage(x, s, FromIMessage(x, m)).1.Inserted?
    ensures m.account in s.accounts
    ensures var (t, o) := SaveMessage(x, s, FromIMessage(x, m));
            ChatStands(x, Run(x, t, steps), m, s.accounts[m.account].source, o.id, |s.attachments|)
  {
    var (t, o) := SaveMessage(x, s, FromIMessage(x, m));
    SaveIMessageAdds(x, s, m);
    SaveKeepsValid(x, s, FromIMessage(x, m));
    SaveRolesFollow(x, s, FromIMessage(x, m));
    RolesAlwaysFollow(x, t, steps, FromIMessage(x, m).parties, o.id);
    FollowedByChat(x, Run(x, t, steps), m, o.id);
    RunAppends(x, t, steps);
    FilesStay(x, t, Run(x, t, steps), |s.attachments|, o.id, m.blobs);
  }
}
