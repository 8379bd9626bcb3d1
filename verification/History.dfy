/** Every committed write of the storage layer as one step, and what holds after any number of steps
    of any number of callers. A crash is a history that stops; a rollback is a step that changes nothing. */
module History {
  import opened Prelude
  import opened Schema
  import opened Identity
  import opened Saving

  datatype Step =
    | Write(content: Bytes)
    | Find(contact: Contact)
    | Insert(m: Incoming, pids: seq<nat>)
    | Merge(keep: nat, discard: nat)
    | Owner(name: string, surname: Option<string>, ids: seq<Ident>)
    | AddAccount(account: Account)
    | SyncDone(accountId: nat, added: nat)
    | SyncFailed(accountId: nat, error: string)

  /** `update_sync_status(success=True)`; refused for an account that does not exist. */
  function RecordSuccess(s: Store, account: nat, added: nat): Store {
    if account !in s.accounts then s else
      var before := if account in s.status then s.status[account].ingested else 0;
      s.(status := s.status[account := Status(before + added, None)])
  }

  function RecordFailure(s: Store, account: nat, error: string): Store {
    if account !in s.accounts then s else
      var before := if account in s.status then s.status[account].ingested else 0;
      s.(status := s.status[account := Status(before, Some(error))])
  }

  /** What a save passes to its transaction: one person per party, the sender first and only once. */
  ghost predicate WellFormed(step: Step) {
    step.Insert? ==> |step.pids| == |step.m.parties| && OneFrom(step.m)
  }

  ghost function Exec(x: Library, s: Store, step: Step): Store
    requires WellFormed(step)
  {
    match step
    case Write(content) => WriteBlob(x, s, content)
    case Find(c) => FindOrCreate(s, c).0
    case Insert(m, pids) => InsertMessage(x, s, m, pids).0
    case Merge(keep, discard) => var r := MergePeople(s, keep, discard); if r.Ok? then r.value else s
    case Owner(name, surname, ids) => var r := UpsertOwner(s, name, surname, ids); if r.Ok? then r.value.0 else s
    case AddAccount(a) => var r := UpsertAccount(s, a); if r.Ok? then r.value.0 else s
    case SyncDone(a, added) => RecordSuccess(s, a, added)
    case SyncFailed(a, e) => RecordFailure(s, a, e)
  }

  ghost predicate AllWellFormed(steps: seq<Step>) {
    forall k :: 0 <= k < |steps| ==> WellFormed(steps[k])
  }

  ghost function Run(x: Library, s: Store, steps: seq<Step>): Store
    requires AllWellFormed(steps)
    decreases |steps|
  {
    if steps == [] then s else
      assert WellFormed(steps[|steps| - 1]);
      Exec(x, Run(x, s, steps[..|steps| - 1]), steps[|steps| - 1])
  }

  // ---------------------------------------------------------------- integrity

  lemma {:induction false} StatusKeepsValid(s: Store, account: nat, row: Status)
    requires Valid(s) && account in s.accounts
    ensures Valid(s.(status := s.status[account := row]))
  {
    SameRolesSameSender(s, s.(status := s.status[account := row]));
  }

  lemma {:induction false} WriteKeepsValid(x: Library, s: Store, content: Bytes)
    requires Valid(s)
    ensures Valid(WriteBlob(x, s, content))
  {
    SameRolesSameSender(s, WriteBlob(x, s, content));
  }

  lemma {:induction false} StepKeepsValid(x: Library, s: Store, step: Step)
    requires Valid(s) && WellFormed(step)
    ensures Valid(Exec(x, s, step))
  {
    match step
    case Write(content) => WriteKeepsValid(x, s, content);
    case Find(c) => FindOrCreateExtends(s, c);
    case Insert(m, pids) => InsertKeepsValid(x, s, m, pids);
    case Merge(keep, discard) => if MergePeople(s, keep, discard).Ok? { MergeKeepsValid(s, keep, discard); }
    case Owner(name, surname, ids) =>
      if UpsertOwner(s, name, surname, ids).Ok? { UpsertOwnerKeepsValid(s, name, surname, ids); }
    case AddAccount(a) => if UpsertAccount(s, a).Ok? { UpsertAccountKeepsValid(s, a); }
    case SyncDone(a, added) => if a in s.accounts { StatusKeepsValid(s, a, RecordSuccess(s, a, added).status[a]); }
    case SyncFailed(a, e) => if a in s.accounts { StatusKeepsValid(s, a, RecordFailure(s, a, e).status[a]); }
  }

  /** Whatever the callers do and wherever they are cut off: every foreign key resolves, the unique
      keys stay unique, each message has exactly one sender row, and sources agree. */
  lemma {:induction false} IntegrityHolds(x: Library, s: Store, steps: seq<Step>)
    requires Valid(s) && AllWellFormed(steps)
    ensures Valid(Run(x, s, steps))
    decreases |steps|
  {
    if steps != [] {
      IntegrityHolds(x, s, steps[..|steps| - 1]);
      StepKeepsValid(x, Run(x, s, steps[..|steps| - 1]), steps[|steps| - 1]);
    }
  }

  // ---------------------------------------------------------------- the status of an account

  /** The step records how a sync attempt of the account ended. */
  predicate Reports(step: Step, account: nat) {
    (step.SyncDone? || step.SyncFailed?) && step.accountId == account
  }

  /** The accounts are all still there, and the status of this one is as it was. */
  ghost predicate StatusStays(s: Store, t: Store, account: nat) {
    && account in t.accounts && (account in t.status <==> account in s.status)
    && (account in s.status ==> t.status[account] == s.status[account])
  }

  lemma {:induction false} PeopleLeaveStatus(x: Library, s: Store, step: Step, account: nat)
    requires step.Owner? || step.Merge? || step.Find?
    requires account in s.accounts
    ensures StatusStays(s, Exec(x, s, step), account)
  {
    if step.Owner? && UpsertOwner(s, step.name, step.surname, step.ids).Ok? {
      UpsertOwnerCarries(s, step.name, step.surname, step.ids);
    }
  }

  lemma {:induction false} OthersLeaveStatus(x: Library, s: Store, step: Step, account: nat)
    requires WellFormed(step) && account in s.accounts && !Reports(step, account)
    ensures StatusStays(s, Exec(x, s, step), account)
  {
    if step.Owner? || step.Merge? || step.Find? { PeopleLeaveStatus(x, s, step, account); }
  }

  lemma {:induction false} ReportIsRecorded(x: Library, s: Store, step: Step, account: nat)
    requires account in s.accounts && Reports(step, account)
    ensures var t := Exec(x, s, step);
            var before := if account in s.status then s.status[account].ingested else 0;
            && account in t.accounts && account in t.status
            && (step.SyncDone? ==> t.status[account] == Status(before + step.added, None))
            && (step.SyncFailed? ==> t.status[account] == Status(before, Some(step.error)))
  {
  }

  /** Only a report changes the account's status: a success adds its insertions and clears the error, a
      failure leaves the counter and puts its error. */
  lemma {:induction false} StepStatus(x: Library, s: Store, step: Step, account: nat)
    requires WellFormed(step) && account in s.accounts
    ensures var t := Exec(x, s, step);
            var before := if account in s.status then s.status[account].ingested else 0;
            && account in t.accounts
            && (if Reports(step, account)
                then account in t.status
                     && t.status[account] == if step.SyncDone? then Status(before + step.added, None)
                                             else Status(before, Some(step.error))
                else StatusStays(s, t, account))
  {
    if Reports(step, account) {
      ReportIsRecorded(x, s, step, account);
    } else {
      OthersLeaveStatus(x, s, step, account);
    }
  }

  /** The `k`-th step is the last report on the account. */
  predicate LastReport(steps: seq<Step>, account: nat, k: nat) {
    && k < |steps| && Reports(steps[k], account)
    && (forall j :: k < j < |steps| ==> !Reports(steps[j], account))
  }

  lemma {:induction false} AccountStays(x: Library, s: Store, steps: seq<Step>, account: nat)
    requires AllWellFormed(steps) && account in s.accounts
    ensures account in Run(x, s, steps).accounts
    decreases |steps|
  {
    if steps != [] {
      AccountStays(x, s, steps[..|steps| - 1], account);
      StepStatus(x, Run(x, s, steps[..|steps| - 1]), steps[|steps| - 1], account);
    }
  }

  /** After any history the recorded error is that of the last attempt reported, and there is none if that one
      succeeded. */
  lemma {:induction false} LastErrorIsLast(x: Library, s: Store, steps: seq<Step>, account: nat, k: nat)
    requires AllWellFormed(steps) && account in s.accounts && LastReport(steps, account, k)
    ensures var t := Run(x, s, steps);
            && account in t.status
            && (t.status[account].lastError == None <==> steps[k].SyncDone?)
            && (steps[k].SyncFailed? ==> t.status[account].lastError == Some(steps[k].error))
    decreases |steps|
  {
    var front := steps[..|steps| - 1];
    AccountStays(x, s, front, account);
    StepStatus(x, Run(x, s, front), steps[|steps| - 1], account);
    if k < |front| { LastErrorIsLast(x, s, front, account, k); }
  }

  // ---------------------------------------------------------------- attachments and files

  /** The digest tells the given contents apart. */
  ghost predicate NoCollision(x: Library, seen: set<Bytes>) {
    forall b, c :: b in seen && c in seen && x.hash(b) == x.hash(c) ==> b == c
  }

  /** Every transaction's attachments were written to the file store earlier in the history. */
  ghost predicate FilesFirst(steps: seq<Step>) {
    forall k, j :: 0 <= k < |steps| && steps[k].Insert? && 0 <= j < |steps[k].m.blobs| ==>
      Write(steps[k].m.blobs[j].content) in steps[..k]
  }

  ghost predicate OnlySeen(s: Store, steps: seq<Step>, seen: set<Bytes>) {
    && s.blobs.Values <= seen
    && (forall k :: 0 <= k < |steps| && steps[k].Write? ==> steps[k].content in seen)
  }

  ghost predicate FileHeld(x: Library, s: Store, content: Bytes) {
    x.hash(content) in s.blobs && s.blobs[x.hash(content)] == content
  }

  /** Files are never replaced or removed. */
  lemma {:induction false} FilesOnlyGrow(x: Library, s: Store, step: Step)
    requires WellFormed(step)
    ensures var t := Exec(x, s, step);
            && (forall h :: h in s.blobs ==> h in t.blobs && t.blobs[h] == s.blobs[h])
            && (!step.Write? ==> t.blobs == s.blobs)
            && (!step.Insert? ==> t.attachments == s.attachments)
  {
    if step.Owner? && UpsertOwner(s, step.name, step.surname, step.ids).Ok? {
      UpsertOwnerCarries(s, step.name, step.surname, step.ids);
    }
  }

  lemma {:induction false} StepKeepsFiles(x: Library, s: Store, step: Step, seen: set<Bytes>)
    requires WellFormed(step)
    requires AttachmentsStored(s, x.hash) && BlobsHashed(s, x.hash)
    requires step.Insert? ==> forall j :: 0 <= j < |step.m.blobs| ==> FileHeld(x, s, step.m.blobs[j].content)
    ensures AttachmentsStored(Exec(x, s, step), x.hash) && BlobsHashed(Exec(x, s, step), x.hash)
  {
    var t := Exec(x, s, step);
    FilesOnlyGrow(x, s, step);
    forall k | 0 <= k < |t.attachments| ensures FileAgrees(t, x.hash, t.attachments[k]) {
      if k < |s.attachments| {
        assert FileAgrees(s, x.hash, s.attachments[k]);
      } else {
        assert FileHeld(x, s, step.m.blobs[k - |s.attachments|].content);
      }
    }
  }

  lemma {:induction false} FilesHeld(x: Library, s: Store, steps: seq<Step>, seen: set<Bytes>)
    requires AllWellFormed(steps) && NoCollision(x, seen) && OnlySeen(s, steps, seen)
    requires BlobsHashed(s, x.hash)
    ensures Run(x, s, steps).blobs.Values <= seen
    ensures forall content :: Write(content) in steps ==> FileHeld(x, Run(x, s, steps), content)
    ensures BlobsHashed(Run(x, s, steps), x.hash)
    decreases |steps|
  {
    if steps != [] {
      var front, last := steps[..|steps| - 1], steps[|steps| - 1];
      assert steps == front + [last];
      FilesHeld(x, s, front, seen);
      var u := Run(x, s, front);
      FilesOnlyGrow(x, u, last);
      if last.Write? && x.hash(last.content) in u.blobs {
        assert u.blobs[x.hash(last.content)] in u.blobs.Values;
      }
      forall content | Write(content) in steps ensures FileHeld(x, Exec(x, u, last), content) {
        if Write(content) in front { assert FileHeld(x, u, content); }
      }
    }
  }

  /** At every point of every history, each attachment row names a file with the recorded hash and
      length; files without a row may exist, rows without a file never. */
  lemma {:induction false} AttachmentsAgree(x: Library, s: Store, steps: seq<Step>, seen: set<Bytes>)
    requires AllWellFormed(steps) && FilesFirst(steps) && NoCollision(x, seen) && OnlySeen(s, steps, seen)
    requires AttachmentsStored(s, x.hash) && BlobsHashed(s, x.hash)
    ensures AttachmentsStored(Run(x, s, steps), x.hash) && BlobsHashed(Run(x, s, steps), x.hash)
    decreases |steps|
  {
    if steps != [] {
      var front, last := steps[..|steps| - 1], steps[|steps| - 1];
      assert steps == front + [last];
      assert FilesFirst(front) by {
        assert forall k :: 0 <= k < |front| ==> front[k] == steps[k] && front[..k] == steps[..k];
      }
      AttachmentsAgree(x, s, front, seen);
      FilesHeld(x, s, front, seen);
      if last.Insert? {
        forall j | 0 <= j < |last.m.blobs| ensures FileHeld(x, Run(x, s, front), last.m.blobs[j].content) {
          assert steps[|front|] == last && steps[..|front|] == front;
          assert Write(last.m.blobs[j].content) in front;
        }
      }
      StepKeepsFiles(x, Run(x, s, front), last, seen);
    }
  }

  // ---------------------------------------------------------------- several callers

  /** `steps` is what the callers' histories give when their steps come in some order. */
  ghost predicate Interleaves(callers: seq<seq<Step>>, steps: seq<Step>)
    decreases |steps|
  {
    if steps == [] then forall c :: 0 <= c < |callers| ==> callers[c] == []
    else exists c :: (0 <= c < |callers| && EndsWith(callers[c], steps[|steps| - 1])
                      && Interleaves(callers[c := callers[c][..|callers[c]| - 1]], steps[..|steps| - 1]))
  }

  predicate EndsWith(steps: seq<Step>, last: Step) {
    steps != [] && steps[|steps| - 1] == last
  }

  lemma {:induction false} EveryStepComes(callers: seq<seq<Step>>, steps: seq<Step>, c: nat)
    requires Interleaves(callers, steps) && c < |callers|
    ensures forall step :: step in callers[c] ==> step in steps
    decreases |steps|
  {
    if steps != [] {
      var d :| 0 <= d < |callers| && EndsWith(callers[d], steps[|steps| - 1])
        && Interleaves(callers[d := callers[d][..|callers[d]| - 1]], steps[..|steps| - 1]);
      var rest := callers[d := callers[d][..|callers[d]| - 1]];
      EveryStepComes(rest, steps[..|steps| - 1], c);
      assert callers[d] == callers[d][..|callers[d]| - 1] + [steps[|steps| - 1]];
      assert c != d ==> rest[c] == callers[c];
      assert steps == steps[..|steps| - 1] + [steps[|steps| - 1]];
    }
  }

  ghost predicate LastFilesFirst(steps: seq<Step>)
    requires steps != []
  {
    var front, last := steps[..|steps| - 1], steps[|steps| - 1];
    last.Insert? ==> forall j :: 0 <= j < |last.m.blobs| ==> Write(last.m.blobs[j].content) in front
  }

  lemma {:induction false} FilesFirstFront(steps: seq<Step>)
    requires steps != []
    ensures FilesFirst(steps) <==> FilesFirst(steps[..|steps| - 1]) && LastFilesFirst(steps)
  {
    var front := steps[..|steps| - 1];
    assert steps[..|front|] == front;
    forall k | 0 <= k < |front| ensures front[k] == steps[k] && front[..k] == steps[..k] {}
    if FilesFirst(front) && LastFilesFirst(steps) {
      forall k, j | 0 <= k < |steps| && steps[k].Insert? && 0 <= j < |steps[k].m.blobs|
        ensures Write(steps[k].m.blobs[j].content) in steps[..k]
      {
        if k < |front| { assert Write(front[k].m.blobs[j].content) in front[..k]; }
      }
    }
  }

  /** If every caller writes its files first, so does any interleaving of them, cut off anywhere. */
  lemma {:induction false} FilesFirstInterleaved(callers: seq<seq<Step>>, steps: seq<Step>)
    requires Interleaves(callers, steps)
    requires forall c :: 0 <= c < |callers| ==> FilesFirst(callers[c])
    ensures FilesFirst(steps)
    decreases |steps|
  {
    if steps != [] {
      var last := steps[|steps| - 1];
      var c :| 0 <= c < |callers| && EndsWith(callers[c], last)
        && Interleaves(callers[c := callers[c][..|callers[c]| - 1]], steps[..|steps| - 1]);
      var rest := callers[c := callers[c][..|callers[c]| - 1]];
      FilesFirstFront(callers[c]);
      FilesFirstInterleaved(rest, steps[..|steps| - 1]);
      EveryStepComes(rest, steps[..|steps| - 1], c);
      FilesFirstFront(steps);
    }
  }

  /** One call after another. */
  lemma {:induction false} FilesFirstInTurn(a: seq<Step>, b: seq<Step>)
    requires FilesFirst(a) && FilesFirst(b)
    ensures FilesFirst(a + b)
    decreases |b|
  {
    if b == [] {
      assert a + b == a;
    } else {
      FilesFirstFront(b);
      FilesFirstInTurn(a, b[..|b| - 1]);
      assert (a + b)[..|a + b| - 1] == a + b[..|b| - 1];
      FilesFirstFront(a + b);
    }
  }

  /** So the attachment rows of any number of callers agree with the files at every point. */
  lemma {:induction false} AttachmentsAgreeForAll(x: Library, s: Store, callers: seq<seq<Step>>, steps: seq<Step>,
                                                  seen: set<Bytes>)
    requires AllWellFormed(steps) && Interleaves(callers, steps)
    requires forall c :: 0 <= c < |callers| ==> FilesFirst(callers[c])
    requires NoCollision(x, seen) && OnlySeen(s, steps, seen)
    requires AttachmentsStored(s, x.hash) && BlobsHashed(s, x.hash)
    ensures AttachmentsStored(Run(x, s, steps), x.hash) && BlobsHashed(Run(x, s, steps), x.hash)
  {
    FilesFirstInterleaved(callers, steps);
    AttachmentsAgree(x, s, steps, seen);
  }

  // ---------------------------------------------------------------- a save as a history

  ghost function Writes(blobs: seq<Blob>): (steps: seq<Step>)
    ensures |steps| == |blobs| && AllWellFormed(steps)
  {
    seq(|blobs|, k requires 0 <= k < |blobs| => Write(blobs[k].content))
  }

  ghost function Finds(cs: seq<Contact>): (steps: seq<Step>)
    ensures |steps| == |cs| && AllWellFormed(steps)
  {
    seq(|cs|, k requires 0 <= k < |cs| => Find(cs[k]))
  }

  lemma {:induction false} RunSplit(x: Library, s: Store, a: seq<Step>, b: seq<Step>)
    requires AllWellFormed(a) && AllWellFormed(b)
    ensures AllWellFormed(a + b)
    ensures Run(x, s, a + b) == Run(x, Run(x, s, a), b)
    decreases |b|
  {
    if b == [] {
      assert a + b == a;
    } else {
      RunSplit(x, s, a, b[..|b| - 1]);
      assert (a + b)[..|a + b| - 1] == a + b[..|b| - 1];
    }
  }

  /** The steps lead from `s` to `t`. */
  ghost predicate Leads(x: Library, s: Store, steps: seq<Step>, t: Store) {
    AllWellFormed(steps) && Run(x, s, steps) == t
  }

  lemma {:induction false} LeadsOn(x: Library, s: Store, a: seq<Step>, t: Store, b: seq<Step>, u: Store)
    requires Leads(x, s, a, t) && Leads(x, t, b, u)
    ensures Leads(x, s, a + b, u)
  {
    RunSplit(x, s, a, b);
  }

  lemma {:induction false} LeadsOneMore(x: Library, s: Store, a: seq<Step>, t: Store, last: Step)
    requires Leads(x, s, a, t) && WellFormed(last)
    ensures Leads(x, s, a + [last], Exec(x, t, last))
  {
    assert (a + [last])[..|a|] == a;
  }

  lemma {:induction false} RunWrites(x: Library, s: Store, blobs: seq<Blob>)
    ensures Run(x, s, Writes(blobs)) == WriteBlobs(x, s, blobs)
    decreases |blobs|
  {
    if blobs != [] {
      RunWrites(x, s, blobs[..|blobs| - 1]);
      assert Writes(blobs)[..|blobs| - 1] == Writes(blobs[..|blobs| - 1]);
    }
  }

  lemma {:induction false} RunFinds(x: Library, s: Store, cs: seq<Contact>)
    ensures Run(x, s, Finds(cs)) == FindOrCreateAll(s, cs).0
    decreases |cs|
  {
    if cs != [] {
      RunFinds(x, s, cs[..|cs| - 1]);
      assert Finds(cs)[..|cs| - 1] == Finds(cs[..|cs| - 1]);
    }
  }

  /** The committed steps of saving `m`, whose transaction uses the person ids `pids`. */
  ghost function StepsOfSave(m: Incoming, pids: seq<nat>): seq<Step> {
    Writes(m.blobs) + Finds(Contacts(m.parties)) + [Insert(m, pids)]
  }

  /** Whatever ids the lookups gave, the files come first. */
  lemma {:induction false} SaveFilesFirst(m: Incoming, pids: seq<nat>)
    ensures FilesFirst(StepsOfSave(m, pids))
  {
    var w, steps := Writes(m.blobs), StepsOfSave(m, pids);
    forall j | 0 <= j < |m.blobs| ensures Write(m.blobs[j].content) in steps[..|steps| - 1] {
      assert steps[..|steps| - 1][j] == w[j];
    }
  }

  /** The steps when nobody else writes meanwhile. */
  ghost function SaveSteps(x: Library, s: Store, m: Incoming): seq<Step> {
    StepsOfSave(m, FindOrCreateAll(WriteBlobs(x, s, m.blobs), Contacts(m.parties)).1)
  }

  lemma {:induction false} SaveRuns(x: Library, s: Store, m: Incoming)
    requires OneFrom(m)
    ensures AllWellFormed(SaveSteps(x, s, m))
    ensures Run(x, s, SaveSteps(x, s, m)) == SaveMessage(x, s, m).0
  {
    var w, f := Writes(m.blobs), Finds(Contacts(m.parties));
    RunWrites(x, s, m.blobs);
    RunFinds(x, WriteBlobs(x, s, m.blobs), Contacts(m.parties));
    RunSplit(x, s, w, f);
    var steps := SaveSteps(x, s, m);
    assert steps[..|steps| - 1] == w + f;
  }

  /** A save is such a history, with its files first; so both theorems cover it, cut off anywhere. */
  lemma {:induction false} SaveIsItsSteps(x: Library, s: Store, m: Incoming)
    requires OneFrom(m)
    ensures var steps := SaveSteps(x, s, m);
            AllWellFormed(steps) && FilesFirst(steps) && Run(x, s, steps) == SaveMessage(x, s, m).0
  {
    SaveRuns(x, s, m);
    SaveFilesFirst(m, FindOrCreateAll(WriteBlobs(x, s, m.blobs), Contacts(m.parties)).1);
  }

  // ---------------------------------------------------------------- saving twice

  lemma {:induction false} BlobsThere(x: Library, s: Store, blobs: seq<Blob>)
    ensures var t := WriteBlobs(x, s, blobs);
            && t == s.(blobs := t.blobs)
            && (forall h :: h in s.blobs ==> h in t.blobs)
            && (forall k :: 0 <= k < |blobs| ==> x.hash(blobs[k].content) in t.blobs)
    decreases |blobs|
  {
    if blobs != [] {
      BlobsThere(x, s, blobs[..|blobs| - 1]);
    }
  }

  lemma {:induction false} BlobsAgain(x: Library, s: Store, blobs: seq<Blob>)
    requires forall k :: 0 <= k < |blobs| ==> x.hash(blobs[k].content) in s.blobs
    ensures WriteBlobs(x, s, blobs) == s
    decreases |blobs|
  {
    if blobs != [] {
      BlobsAgain(x, s, blobs[..|blobs| - 1]);
    }
  }

  lemma {:induction false} ContactsAgain(s: Store, cs: seq<Contact>)
    requires forall k :: 0 <= k < |cs| ==> cs[k].ident in s.identifiers
    ensures FindOrCreateAll(s, cs).0 == s
    decreases |cs|
  {
    if cs != [] {
      ContactsAgain(s, cs[..|cs| - 1]);
    }
  }

  lemma {:induction false} ContactsThere(s: Store, cs: seq<Contact>)
    ensures var t := FindOrCreateAll(s, cs).0;
            && t == s.(people := t.people, identifiers := t.identifiers)
            && (forall i :: i in s.identifiers ==> i in t.identifiers)
            && (forall k :: 0 <= k < |cs| ==> cs[k].ident in t.identifiers)
    decreases |cs|
  {
    if cs != [] {
      ContactsThere(s, cs[..|cs| - 1]);
    }
  }

  /** Everything a save of `m` would add is there. */
  ghost predicate Settled(x: Library, s: Store, m: Incoming) {
    && (forall k :: 0 <= k < |m.blobs| ==> x.hash(m.blobs[k].content) in s.blobs)
    && (forall k :: 0 <= k < |m.parties| ==> m.parties[k].contact.ident in s.identifiers)
    && MessagesNamed(s.messages, m.account, m.externalId) != {}
  }

  /** The row a repeated save reports. */
  ghost function RowIdOf(s: Store, m: Incoming): nat {
    MaxOf(MessagesNamed(s.messages, m.account, m.externalId))
  }

  lemma {:induction false} SettledIsSkipped(x: Library, s: Store, m: Incoming)
    requires Settled(x, s, m)
    ensures SaveMessage(x, s, m) == (s, Skipped(RowIdOf(s, m)))
  {
    BlobsAgain(x, s, m.blobs);
    ContactsAgain(s, Contacts(m.parties));
  }

  lemma {:induction false} SaveSettles(x: Library, s: Store, m: Incoming)
    requires !SaveMessage(x, s, m).1.Refused?
    ensures var (t, o) := SaveMessage(x, s, m); Settled(x, t, m) && o.id == RowIdOf(t, m)
  {
    var cs, u := Contacts(m.parties), WriteBlobs(x, s, m.blobs);
    var (t, o) := SaveMessage(x, s, m);
    BlobsThere(x, s, m.blobs);
    ContactsThere(u, cs);
    assert forall k :: 0 <= k < |m.parties| ==> cs[k].ident == m.parties[k].contact.ident;
    if o.Inserted? {
      assert MessagesNamed(t.messages, m.account, m.externalId) == {o.id};
    }
  }

  lemma {:induction false} NamesStay(x: Library, s: Store, step: Step, account: nat, e: string)
    requires WellFormed(step) && MessagesNamed(s.messages, account, e) != {}
    ensures MessagesNamed(Exec(x, s, step).messages, account, e) == MessagesNamed(s.messages, account, e)
  {
    if step.Owner? && UpsertOwner(s, step.name, step.surname, step.ids).Ok? {
      UpsertOwnerCarries(s, step.name, step.surname, step.ids);
    }
    if step.Insert? && InsertMessage(x, s, step.m, step.pids).1.Inserted? {
      assert account == step.m.account ==> e != step.m.externalId;
    }
  }

  lemma {:induction false} IdentifiersStay(x: Library, s: Store, step: Step)
    requires WellFormed(step)
    ensures s.identifiers.Keys <= Exec(x, s, step).identifiers.Keys
  {
    if step.Owner? && UpsertOwner(s, step.name, step.surname, step.ids).Ok? {
      UpsertMoves(s, step.name, step.surname, step.ids);
    }
  }

  lemma {:induction false} StepKeepsSettled(x: Library, s: Store, step: Step, m: Incoming)
    requires WellFormed(step) && Settled(x, s, m)
    ensures Settled(x, Exec(x, s, step), m) && RowIdOf(Exec(x, s, step), m) == RowIdOf(s, m)
  {
    FilesOnlyGrow(x, s, step);
    IdentifiersStay(x, s, step);
    NamesStay(x, s, step, m.account, m.externalId);
  }

  lemma {:induction false} RunKeepsSettled(x: Library, s: Store, steps: seq<Step>, m: Incoming)
    requires AllWellFormed(steps) && Settled(x, s, m)
    ensures Settled(x, Run(x, s, steps), m) && RowIdOf(Run(x, s, steps), m) == RowIdOf(s, m)
    decreases |steps|
  {
    if steps != [] {
      RunKeepsSettled(x, s, steps[..|steps| - 1], m);
      StepKeepsSettled(x, Run(x, s, steps[..|steps| - 1]), steps[|steps| - 1], m);
    }
  }

  /** Saving a stored message again, whatever has been written in between, changes no table and no file
      and reports the stored row. */
  lemma {:induction false} SaveTwice(x: Library, s: Store, m: Incoming, between: seq<Step>)
    requires !SaveMessage(x, s, m).1.Refused? && AllWellFormed(between)
    ensures var (t, o) := SaveMessage(x, s, m);
            SaveMessage(x, Run(x, t, between), m) == (Run(x, t, between), Skipped(o.id))
  {
    var t := SaveMessage(x, s, m).0;
    SaveSettles(x, s, m);
    RunKeepsSettled(x, t, between, m);
    SettledIsSkipped(x, Run(x, t, between), m);
  }
}
