/** The sync loops on whole databases: tables, row ids, people and files. `Upto` is what one
    uninterrupted pass over a log leaves after its first messages. */
module Backfill {
  import opened Prelude
  import opened Schema
  import opened Identity
  import opened Saving
  import opened History
  import opened Archive
  import opened ResumableLog

  /** Saving as a step on the database. */
  ghost function Saver(x: Library): (Store, Incoming) -> Store {
    (s: Store, m: Incoming) => SaveMessage(x, s, m).0
  }

  ghost function Upto(x: Library, s: Store, log: seq<Incoming>, k: nat): Store
    requires k <= |log|
  {
    Fold(Saver(x), s, log[..k])
  }

  lemma {:induction false} SavedUnlessRefused(x: Library, t: Tally, m: Incoming)
    requires SaveNext(x, t, m).error.None?
    ensures SaveNext(x, t, m).store == Saver(x)(t.store, m)
    ensures !SaveMessage(x, t.store, m).1.Refused?
  {
  }

  lemma {:induction false} NeverFails(x: Library, s: Store, account: nat, ms: seq<Incoming>)
    requires Valid(s) && ForAccount(s, account, ms)
    ensures Valid(SaveEach(x, s, ms).store) && SaveEach(x, s, ms).error.None?
  {
    SaveEachAlone(x, s, account, ms);
  }

  /** A sync loop is that step over its messages. */
  lemma {:induction false} SaveEachFolds(x: Library, s: Store, account: nat, ms: seq<Incoming>)
    requires Valid(s) && ForAccount(s, account, ms)
    ensures SaveEach(x, s, ms).store == Fold(Saver(x), s, ms)
    decreases |ms|
  {
    NeverFails(x, s, account, ms);
    if ms != [] {
      NeverFails(x, s, account, ms[..|ms| - 1]);
      SaveEachFolds(x, s, account, ms[..|ms| - 1]);
      SavedUnlessRefused(x, SaveEach(x, s, ms[..|ms| - 1]), ms[|ms| - 1]);
    }
  }

  /** The state after part of the pass is what the loop over that part leaves. */
  lemma {:induction false} UptoIsLoop(x: Library, s: Store, account: nat, log: seq<Incoming>, k: nat)
    requires Valid(s) && ForAccount(s, account, log) && k <= |log|
    ensures Upto(x, s, log, k) == SaveEach(x, s, log[..k]).store
  {
    SaveEachFolds(x, s, account, log[..k]);
  }

  lemma {:induction false} UptoIsValid(x: Library, s: Store, account: nat, log: seq<Incoming>, k: nat)
    requires Valid(s) && ForAccount(s, account, log) && k <= |log|
    ensures Valid(Upto(x, s, log, k)) && account in Upto(x, s, log, k).accounts
  {
    SaveEachAlone(x, s, account, log[..k]);
    UptoIsLoop(x, s, account, log, k);
  }

  lemma {:induction false} ArchivedUpto(x: Library, s: Store, account: nat, log: seq<Incoming>, k: nat)
    requires Valid(s) && ForAccount(s, account, log) && Archived(s, account) == map[] && k <= |log|
    ensures Archived(Upto(x, s, log, k), account) == Keep(Entries(s.accounts[account].source, log)[..k])
  {
    SaveEachAlone(x, s, account, log[..k]);
    UptoIsLoop(x, s, account, log, k);
    EntriesSlice(s.accounts[account].source, log, 0, k);
    assert log[0..k] == log[..k];
    assert Entries(s.accounts[account].source, log)[0..k] == Entries(s.accounts[account].source, log)[..k];
  }

  lemma {:induction false} NextNotRefused(x: Library, s: Store, account: nat, log: seq<Incoming>, k: nat)
    requires Valid(s) && ForAccount(s, account, log) && k < |log|
    ensures !SaveMessage(x, Upto(x, s, log, k), log[k]).1.Refused?
  {
    NeverFails(x, s, account, log[..k]);
    NeverFails(x, s, account, log[..k + 1]);
    UptoIsLoop(x, s, account, log, k);
    SaveEachStep(x, s, log, k);
    SavedUnlessRefused(x, SaveEach(x, s, log[..k]), log[k]);
  }

  lemma {:induction false} SaveKeepsSettled(x: Library, s: Store, saved: Incoming, m: Incoming)
    requires OneFrom(saved) && Settled(x, s, m)
    ensures Settled(x, Saver(x)(s, saved), m)
  {
    SaveIsItsSteps(x, s, saved);
    RunKeepsSettled(x, s, SaveSteps(x, s, saved), m);
  }

  lemma {:induction false} UptoNext(x: Library, s: Store, log: seq<Incoming>, k: nat)
    requires k < |log|
    ensures Upto(x, s, log, k + 1) == Saver(x)(Upto(x, s, log, k), log[k])
  {
    assert log[..k + 1][..k] == log[..k];
  }

  /** What the pass has been over is there. */
  lemma {:induction false} PassedIsSettled(x: Library, s: Store, account: nat, log: seq<Incoming>, i: nat, k: nat)
    requires Valid(s) && ForAccount(s, account, log) && i < k <= |log|
    ensures Settled(x, Upto(x, s, log, k), log[i])
    decreases k
  {
    UptoNext(x, s, log, k - 1);
    if i == k - 1 {
      NextNotRefused(x, s, account, log, i);
      SaveSettles(x, Upto(x, s, log, i), log[i]);
    } else {
      PassedIsSettled(x, s, account, log, i, k - 1);
      SaveKeepsSettled(x, Upto(x, s, log, k - 1), log[k - 1], log[i]);
    }
  }

  lemma {:induction false} SettledStays(x: Library, s: Store, m: Incoming)
    requires Settled(x, s, m)
    ensures Saver(x)(s, m) == s
  {
    SettledIsSkipped(x, s, m);
  }

  /** Passing over settled messages changes nothing. */
  lemma {:induction false} PassSettled(x: Library, s: Store, log: seq<Incoming>, k: nat, n: nat)
    requires k <= n <= |log|
    requires forall i :: k <= i < n ==> Settled(x, Upto(x, s, log, k), log[i])
    ensures Upto(x, s, log, n) == Upto(x, s, log, k)
  {
    forall i | k <= i < n ensures Saver(x)(Upto(x, s, log, k), log[i]) == Upto(x, s, log, k) {
      SettledStays(x, Upto(x, s, log, k), log[i]);
    }
    FoldSkips(Saver(x), s, log, k, n);
  }

  // ---------------------------------------------------------------- what a pass has stored

  ghost predicate Carries(x: Library, m: Incoming, hash: string) {
    exists k :: 0 <= k < |m.blobs| && x.hash(m.blobs[k].content) == hash
  }

  ghost predicate Mentions(m: Incoming, i: Ident) {
    exists k :: 0 <= k < |m.parties| && m.parties[k].contact.ident == i
  }

  /** Saving `before` leaves nothing of `m` to add: its files, its people and its external id are in `s` or
      come with one of these messages. */
  ghost predicate Covered(x: Library, s: Store, before: seq<Incoming>, m: Incoming) {
    && (forall k :: 0 <= k < |m.blobs| ==> HasFile(x, s, before, x.hash(m.blobs[k].content)))
    && (forall k :: 0 <= k < |m.parties| ==> HasPerson(s, before, m.parties[k].contact.ident))
    && HasId(s, before, m.account, m.externalId)
  }

  ghost predicate HasFile(x: Library, s: Store, before: seq<Incoming>, hash: string) {
    hash in s.blobs || exists i :: 0 <= i < |before| && Carries(x, before[i], hash)
  }

  ghost predicate HasPerson(s: Store, before: seq<Incoming>, ident: Ident) {
    ident in s.identifiers || exists i :: 0 <= i < |before| && Mentions(before[i], ident)
  }

  ghost predicate HasId(s: Store, before: seq<Incoming>, account: nat, externalId: string) {
    || MessagesNamed(s.messages, account, externalId) != {}
    || exists i :: 0 <= i < |before| && before[i].externalId == externalId
  }

  lemma {:induction false} BlobsHold(x: Library, s: Store, blobs: seq<Blob>, hash: string)
    ensures hash in WriteBlobs(x, s, blobs).blobs
       <==> hash in s.blobs || exists k :: 0 <= k < |blobs| && x.hash(blobs[k].content) == hash
    decreases |blobs|
  {
    if blobs != [] {
      var front := blobs[..|blobs| - 1];
      BlobsHold(x, s, front, hash);
      assert blobs == front + [blobs[|blobs| - 1]];
    }
  }

  /** A save stores its message's files and people and no others. */
  lemma {:induction false} SaveHasFile(x: Library, s: Store, m: Incoming, hash: string)
    ensures hash in Saver(x)(s, m).blobs <==> hash in s.blobs || Carries(x, m, hash)
  {
    BlobsHold(x, s, m.blobs, hash);
    ContactsThere(WriteBlobs(x, s, m.blobs), Contacts(m.parties));
  }

  lemma {:induction false} SaveHasPerson(x: Library, s: Store, m: Incoming, i: Ident)
    ensures i in Saver(x)(s, m).identifiers <==> i in s.identifiers || Mentions(m, i)
  {
    var cs := Contacts(m.parties);
    BlobsThere(x, s, m.blobs);
    PeopleHold(WriteBlobs(x, s, m.blobs), cs, i);
    assert forall k :: 0 <= k < |cs| ==> cs[k].ident == m.parties[k].contact.ident;
  }

  lemma {:induction false} OneMoreFile(x: Library, s: Store, front: seq<Incoming>, m: Incoming, hash: string)
    ensures HasFile(x, s, front + [m], hash) <==> HasFile(x, s, front, hash) || Carries(x, m, hash)
  {
    var all := front + [m];
    assert all[|front|] == m && forall i :: 0 <= i < |front| ==> all[i] == front[i];
  }

  lemma {:induction false} OneMorePerson(s: Store, front: seq<Incoming>, m: Incoming, i: Ident)
    ensures HasPerson(s, front + [m], i) <==> HasPerson(s, front, i) || Mentions(m, i)
  {
    var all := front + [m];
    assert all[|front|] == m && forall h :: 0 <= h < |front| ==> all[h] == front[h];
  }

  lemma {:induction false} FoldHasFile(x: Library, step: (Store, Incoming) -> Store, s: Store, ms: seq<Incoming>,
                                       hash: string)
    requires forall u, m :: hash in step(u, m).blobs <==> hash in u.blobs || Carries(x, m, hash)
    ensures hash in Fold(step, s, ms).blobs <==> HasFile(x, s, ms, hash)
    decreases |ms|
  {
    if ms != [] {
      FoldHasFile(x, step, s, ms[..|ms| - 1], hash);
      OneMoreFile(x, s, ms[..|ms| - 1], ms[|ms| - 1], hash);
      assert ms == ms[..|ms| - 1] + [ms[|ms| - 1]];
    }
  }

  lemma {:induction false} FoldHasPerson(step: (Store, Incoming) -> Store, s: Store, ms: seq<Incoming>, i: Ident)
    requires forall u, m :: i in step(u, m).identifiers <==> i in u.identifiers || Mentions(m, i)
    ensures i in Fold(step, s, ms).identifiers <==> HasPerson(s, ms, i)
    decreases |ms|
  {
    if ms != [] {
      FoldHasPerson(step, s, ms[..|ms| - 1], i);
      OneMorePerson(s, ms[..|ms| - 1], ms[|ms| - 1], i);
      assert ms == ms[..|ms| - 1] + [ms[|ms| - 1]];
    }
  }

  lemma {:induction false} UptoHasFile(x: Library, s: Store, log: seq<Incoming>, k: nat, hash: string)
    requires k <= |log|
    ensures hash in Upto(x, s, log, k).blobs <==> HasFile(x, s, log[..k], hash)
  {
    forall u, m ensures hash in Saver(x)(u, m).blobs <==> hash in u.blobs || Carries(x, m, hash) {
      SaveHasFile(x, u, m, hash);
    }
    FoldHasFile(x, Saver(x), s, log[..k], hash);
  }

  lemma {:induction false} UptoHasPerson(x: Library, s: Store, log: seq<Incoming>, k: nat, i: Ident)
    requires k <= |log|
    ensures i in Upto(x, s, log, k).identifiers <==> HasPerson(s, log[..k], i)
  {
    forall u, m ensures i in Saver(x)(u, m).identifiers <==> i in u.identifiers || Mentions(m, i) {
      SaveHasPerson(x, u, m, i);
    }
    FoldHasPerson(Saver(x), s, log[..k], i);
  }

  lemma {:induction false} EntriesNames(a: map<string, Message>, source: string, ms: seq<Incoming>, e: string)
    ensures e in PutAll(a, Entries(source, ms)) <==> e in a || exists i :: 0 <= i < |ms| && ms[i].externalId == e
  {
    PutAllKeys(a, Entries(source, ms));
    assert forall i :: 0 <= i < |ms| ==> Entries(source, ms)[i].key == ms[i].externalId;
  }

  lemma {:induction false} UptoHasId(x: Library, s: Store, account: nat, log: seq<Incoming>, k: nat, e: string)
    requires Valid(s) && ForAccount(s, account, log) && k <= |log|
    ensures MessagesNamed(Upto(x, s, log, k).messages, account, e) != {} <==> HasId(s, log[..k], account, e)
  {
    SaveEachAlone(x, s, account, log[..k]);
    UptoIsLoop(x, s, account, log, k);
    KnownIsArchived(Upto(x, s, log, k), account, e);
    KnownIsArchived(s, account, e);
    EntriesNames(Archived(s, account), s.accounts[account].source, log[..k], e);
  }

  /** A message is settled by the pass over the first `k` exactly when those cover it. */
  lemma {:induction false} SettledIffCovered(x: Library, s: Store, account: nat, log: seq<Incoming>, k: nat,
                                             m: Incoming)
    requires Valid(s) && ForAccount(s, account, log) && k <= |log| && m.account == account
    ensures Settled(x, Upto(x, s, log, k), m) <==> Covered(x, s, log[..k], m)
  {
    var u := Upto(x, s, log, k);
    forall b | 0 <= b < |m.blobs|
      ensures x.hash(m.blobs[b].content) in u.blobs <==> HasFile(x, s, log[..k], x.hash(m.blobs[b].content))
    {
      UptoHasFile(x, s, log, k, x.hash(m.blobs[b].content));
    }
    forall p | 0 <= p < |m.parties|
      ensures m.parties[p].contact.ident in u.identifiers <==> HasPerson(s, log[..k], m.parties[p].contact.ident)
    {
      UptoHasPerson(x, s, log, k, m.parties[p].contact.ident);
    }
    UptoHasId(x, s, account, log, k, m.externalId);
  }

  // ---------------------------------------------------------------- a save cut off and taken up again

  lemma {:induction false} BlobsResume(x: Library, s: Store, blobs: seq<Blob>, c: nat)
    requires c <= |blobs|
    ensures WriteBlobs(x, WriteBlobs(x, s, blobs[..c]), blobs) == WriteBlobs(x, s, blobs)
    decreases |blobs|
  {
    if c == |blobs| {
      assert blobs[..c] == blobs;
      BlobsThere(x, s, blobs);
      BlobsAgain(x, WriteBlobs(x, s, blobs), blobs);
    } else {
      var front := blobs[..|blobs| - 1];
      assert front[..c] == blobs[..c];
      BlobsResume(x, s, front, c);
    }
  }

  lemma {:induction false} FoundAgain(s: Store, cs: seq<Contact>)
    requires Valid(s)
    ensures FindOrCreateAll(FindOrCreateAll(s, cs).0, cs) == FindOrCreateAll(s, cs)
  {
    var (t, ids) := FindOrCreateAll(s, cs);
    FindOrCreateAllExtends(s, cs);
    ContactsThere(s, cs);
    ContactsAgain(t, cs);
    FindOrCreateAllExtends(t, cs);
    forall k | 0 <= k < |cs| ensures FindOrCreateAll(t, cs).1[k] == ids[k] {
      assert ResolvesTo(t, cs[k].ident, ids[k]) && ResolvesTo(t, cs[k].ident, FindOrCreateAll(t, cs).1[k]);
    }
    assert FindOrCreateAll(t, cs).1 == ids;
  }

  lemma {:induction false} FindsResume(s: Store, cs: seq<Contact>, c: nat)
    requires Valid(s) && c <= |cs|
    ensures FindOrCreateAll(FindOrCreateAll(s, cs[..c]).0, cs) == FindOrCreateAll(s, cs)
    decreases |cs|
  {
    if c == |cs| {
      assert cs[..c] == cs;
      FoundAgain(s, cs);
    } else {
      var front := cs[..|cs| - 1];
      assert front[..c] == cs[..c];
      FindsResume(s, front, c);
    }
  }

  ghost predicate HasWritten(x: Library, s: Store, m: Incoming, c: nat, t: Store) {
    c <= |m.blobs| && t == WriteBlobs(x, s, m.blobs[..c])
  }

  ghost predicate HasFound(x: Library, s: Store, m: Incoming, c: nat, t: Store) {
    c <= |m.parties| && t == FindOrCreateAll(WriteBlobs(x, s, m.blobs), Contacts(m.parties)[..c]).0
  }

  /** What a save leaves that is cut off before its transaction. */
  ghost predicate IsPart(x: Library, s: Store, m: Incoming, t: Store) {
    (exists c: nat :: HasWritten(x, s, m, c, t)) || (exists c: nat :: HasFound(x, s, m, c, t))
  }

  lemma {:induction false} CutInWrites(x: Library, s: Store, m: Incoming, r: nat)
    requires OneFrom(m) && r <= |m.blobs|
    ensures r <= |SaveSteps(x, s, m)| && AllWellFormed(SaveSteps(x, s, m)[..r])
    ensures HasWritten(x, s, m, r, Run(x, s, SaveSteps(x, s, m)[..r]))
  {
    assert SaveSteps(x, s, m)[..r] == Writes(m.blobs[..r]);
    RunWrites(x, s, m.blobs[..r]);
  }

  lemma {:induction false} CutInFinds(x: Library, s: Store, m: Incoming, r: nat)
    requires OneFrom(m) && r <= |m.parties|
    ensures |m.blobs| + r <= |SaveSteps(x, s, m)| && AllWellFormed(SaveSteps(x, s, m)[..|m.blobs| + r])
    ensures HasFound(x, s, m, r, Run(x, s, SaveSteps(x, s, m)[..|m.blobs| + r]))
  {
    var w, f := Writes(m.blobs), Finds(Contacts(m.parties)[..r]);
    assert SaveSteps(x, s, m)[..|m.blobs| + r] == w + f;
    RunWrites(x, s, m.blobs);
    RunFinds(x, WriteBlobs(x, s, m.blobs), Contacts(m.parties)[..r]);
    RunSplit(x, s, w, f);
  }

  lemma {:induction false} CutIsPart(x: Library, s: Store, m: Incoming, r: nat)
    requires OneFrom(m) && r < |SaveSteps(x, s, m)|
    ensures AllWellFormed(SaveSteps(x, s, m)[..r])
    ensures IsPart(x, s, m, Run(x, s, SaveSteps(x, s, m)[..r]))
  {
    if r <= |m.blobs| {
      CutInWrites(x, s, m, r);
    } else {
      CutInFinds(x, s, m, r - |m.blobs|);
    }
  }

  lemma {:induction false} WritesResume(x: Library, s: Store, m: Incoming, c: nat)
    requires c <= |m.blobs|
    ensures var t := WriteBlobs(x, s, m.blobs[..c]);
            t.messages == s.messages && SaveMessage(x, t, m) == SaveMessage(x, s, m)
  {
    BlobsResume(x, s, m.blobs, c);
    FilesOnly(x, s, m.blobs[..c]);
  }

  lemma {:induction false} PeopleResume(x: Library, s: Store, m: Incoming, c: nat)
    requires Valid(s) && c <= |m.parties|
    ensures var t := FindOrCreateAll(WriteBlobs(x, s, m.blobs), Contacts(m.parties)[..c]).0;
            t.messages == s.messages && SaveMessage(x, t, m) == SaveMessage(x, s, m)
  {
    var u, cs := WriteBlobs(x, s, m.blobs), Contacts(m.parties);
    var t := FindOrCreateAll(u, cs[..c]).0;
    BlobsThere(x, s, m.blobs);
    SameRolesSameSender(s, u);
    ContactsThere(u, cs[..c]);
    BlobsAgain(x, t, m.blobs);
    FindsResume(u, cs, c);
  }

  /** Taken up again the save ends as it would have. */
  lemma {:induction false} PartResumes(x: Library, s: Store, m: Incoming, t: Store)
    requires Valid(s) && IsPart(x, s, m, t)
    ensures t.messages == s.messages && SaveMessage(x, t, m) == SaveMessage(x, s, m)
  {
    if c: nat :| HasWritten(x, s, m, c, t) {
      WritesResume(x, s, m, c);
    } else {
      var c: nat :| HasFound(x, s, m, c, t);
      PeopleResume(x, s, m, c);
    }
  }

  /** And of a settled message no part changes anything. */
  lemma {:induction false} SettledPart(x: Library, s: Store, m: Incoming, t: Store)
    requires Settled(x, s, m) && IsPart(x, s, m, t)
    ensures t == s
  {
    if c: nat :| HasWritten(x, s, m, c, t) {
      BlobsAgain(x, s, m.blobs[..c]);
    } else {
      var c: nat :| HasFound(x, s, m, c, t);
      BlobsAgain(x, s, m.blobs);
      ContactsAgain(s, Contacts(m.parties)[..c]);
    }
  }
}
