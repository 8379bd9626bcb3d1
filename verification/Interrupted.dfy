/** A sync loop as its committed steps, cut off after any of them, inside a save too, and taken up again
    by the next run. The result concerns whole databases: tables, row ids, people and files. */
module Interrupted {
  import opened Prelude
  import opened Schema
  import opened Identity
  import opened Saving
  import opened History
  import opened ResumableLog
  import opened Archive
  import opened SyncLoop
  import opened Backfill

  // ---------------------------------------------------------------- a loop as its steps

  ghost predicate AllOneFrom(log: seq<Incoming>) {
    forall k :: 0 <= k < |log| ==> OneFrom(log[k])
  }

  ghost function Committed(x: Library): (Store, Incoming) -> seq<Step> {
    (s: Store, m: Incoming) => SaveSteps(x, s, m)
  }

  /** The steps that saving messages `j` up to `n` of the log commits, one after another. */
  ghost function LoopSteps(x: Library, s: Store, log: seq<Incoming>, j: nat, n: nat): seq<Step>
    requires n <= |log|
  {
    AllSteps(Saver(x), Committed(x), s, log, j, n)
  }

  lemma {:induction false} CommittedLead(x: Library, s: Store, m: Incoming)
    requires OneFrom(m)
    ensures Leads(x, s, Committed(x)(s, m), Saver(x)(s, m))
  {
    SaveRuns(x, s, m);
  }

  lemma {:induction false} LoopLeads(x: Library, step: (Store, Incoming) -> Store,
                                     commits: (Store, Incoming) -> seq<Step>, s: Store, log: seq<Incoming>, j: nat,
                                     n: nat)
    requires n <= |log|
    requires forall u, k :: 0 <= k < |log| ==> Leads(x, u, commits(u, log[k]), step(u, log[k]))
    ensures Leads(x, s, AllSteps(step, commits, s, log, j, n), FoldTo(step, s, log, j, n))
  {
    if j < n {
      var u := FoldTo(step, s, log, j, n - 1);
      LoopLeads(x, step, commits, s, log, j, n - 1);
      LeadsOn(x, s, AllSteps(step, commits, s, log, j, n - 1), u, commits(u, log[n - 1]), step(u, log[n - 1]));
    }
  }

  lemma {:induction false} LoopRuns(x: Library, s: Store, log: seq<Incoming>, j: nat, n: nat)
    requires AllOneFrom(log) && n <= |log|
    ensures Leads(x, s, LoopSteps(x, s, log, j, n), FoldTo(Saver(x), s, log, j, n))
  {
    forall u, k | 0 <= k < |log| ensures Leads(x, u, Committed(x)(u, log[k]), Saver(x)(u, log[k])) {
      CommittedLead(x, u, log[k]);
    }
    LoopLeads(x, Saver(x), Committed(x), s, log, j, n);
  }

  /** `t` is what saving `m` leaves, or part of it. */
  ghost predicate WithinSave(x: Library, s: Store, m: Incoming, t: Store) {
    t == Saver(x)(s, m) || IsPart(x, s, m, t)
  }

  lemma {:induction false} CutInSave(x: Library, u: Store, m: Incoming, r: nat) returns (t: Store)
    requires OneFrom(m) && r <= |Committed(x)(u, m)|
    ensures Leads(x, u, Committed(x)(u, m)[..r], t) && WithinSave(x, u, m, t)
  {
    if r < |SaveSteps(x, u, m)| {
      CutIsPart(x, u, m, r);
    } else {
      SaveRuns(x, u, m);
      assert SaveSteps(x, u, m)[..r] == SaveSteps(x, u, m);
    }
    t := Run(x, u, SaveSteps(x, u, m)[..r]);
  }

  /** Cut off after any number of steps, a loop is within one of its saves. */
  lemma {:induction false} CutIsWithin(x: Library, s: Store, log: seq<Incoming>, j: nat, n: nat, c: nat)
      returns (i: nat, t: Store)
    requires AllOneFrom(log) && j < n <= |log| && c <= |LoopSteps(x, s, log, j, n)|
    ensures Leads(x, s, LoopSteps(x, s, log, j, n)[..c], t)
    ensures j <= i < n && WithinSave(x, FoldTo(Saver(x), s, log, j, i), log[i], t)
  {
    var r;
    i, r := CutSplits(Saver(x), Committed(x), s, log, j, n, c);
    var u := FoldTo(Saver(x), s, log, j, i);
    LoopRuns(x, s, log, j, i);
    t := CutInSave(x, u, log[i], r);
    LeadsOn(x, s, LoopSteps(x, s, log, j, i), u, Committed(x)(u, log[i])[..r], t);
  }

  // ---------------------------------------------------------------- but for the status table

  /** The same tables and files, except perhaps the sync status. */
  ghost predicate Alike(s: Store, t: Store) {
    t == s.(status := t.status)
  }

  lemma {:induction false} BlobsAlike(x: Library, s: Store, t: Store, blobs: seq<Blob>)
    requires Alike(s, t)
    ensures Alike(WriteBlobs(x, s, blobs), WriteBlobs(x, t, blobs))
    decreases |blobs|
  {
    if blobs != [] { BlobsAlike(x, s, t, blobs[..|blobs| - 1]); }
  }

  lemma {:induction false} PeopleAlike(s: Store, t: Store, cs: seq<Contact>)
    requires Alike(s, t)
    ensures Alike(FindOrCreateAll(s, cs).0, FindOrCreateAll(t, cs).0)
    ensures FindOrCreateAll(s, cs).1 == FindOrCreateAll(t, cs).1
    decreases |cs|
  {
    if cs != [] { PeopleAlike(s, t, cs[..|cs| - 1]); }
  }

  lemma {:induction false} InsertAlike(x: Library, s: Store, t: Store, m: Incoming, pids: seq<nat>)
    requires Alike(s, t) && |pids| == |m.parties|
    ensures Alike(InsertMessage(x, s, m, pids).0, InsertMessage(x, t, m, pids).0)
  {
  }

  /** A save neither reads nor writes the status table. */
  lemma {:induction false} SaveAlike(x: Library, s: Store, t: Store, m: Incoming)
    requires Alike(s, t)
    ensures Alike(Saver(x)(s, m), Saver(x)(t, m))
  {
    BlobsAlike(x, s, t, m.blobs);
    PeopleAlike(WriteBlobs(x, s, m.blobs), WriteBlobs(x, t, m.blobs), Contacts(m.parties));
    var (v, pids) := FindOrCreateAll(WriteBlobs(x, s, m.blobs), Contacts(m.parties));
    var w := FindOrCreateAll(WriteBlobs(x, t, m.blobs), Contacts(m.parties)).0;
    InsertAlike(x, v, w, m, pids);
  }

  lemma {:induction false} SavesRespectAlike(x: Library)
    ensures forall a, b, m :: Alike(a, b) ==> Alike(Saver(x)(a, m), Saver(x)(b, m))
  {
    forall a, b, m | Alike(a, b) ensures Alike(Saver(x)(a, m), Saver(x)(b, m)) {
      SaveAlike(x, a, b, m);
    }
  }

  predicate StatusOnly(step: Step) {
    step.SyncDone? || step.SyncFailed?
  }

  ghost predicate AllStatus(steps: seq<Step>) {
    forall k :: 0 <= k < |steps| ==> StatusOnly(steps[k])
  }

  lemma {:induction false} StatusStep(x: Library, s: Store, t: Store, step: Step)
    requires StatusOnly(step) && Alike(s, t)
    ensures WellFormed(step) && Alike(s, Exec(x, t, step))
  {
  }

  lemma {:induction false} StatusRun(x: Library, s: Store, steps: seq<Step>)
    requires AllStatus(steps)
    ensures AllWellFormed(steps) && Alike(s, Run(x, s, steps))
    decreases |steps|
  {
    if steps != [] {
      StatusRun(x, s, steps[..|steps| - 1]);
      StatusStep(x, s, Run(x, s, steps[..|steps| - 1]), steps[|steps| - 1]);
    }
  }

  // ---------------------------------------------------------------- between two messages

  /** But for the status table, `p` holds what the pass over the first `k` messages holds and perhaps part
      of a save of the next: what it lacks, taking that one up again adds. */
  ghost predicate Between(x: Library, s: Store, log: seq<Incoming>, k: nat, p: Store)
    requires k <= |log|
  {
    var u := Upto(x, s, log, k);
    && Valid(p) && p.messages == u.messages
    && (k == |log| ==> Alike(u, p))
    && (k < |log| ==> Alike(Upto(x, s, log, k + 1), Saver(x)(p, log[k])))
    && (forall m :: Settled(x, u, m) ==> Settled(x, p, m))
  }

  lemma {:induction false} LikeIsBetween(x: Library, s: Store, log: seq<Incoming>, k: nat, p: Store)
    requires k <= |log| && Valid(p) && Alike(Upto(x, s, log, k), p)
    ensures Between(x, s, log, k, p)
  {
    if k < |log| {
      UptoNext(x, s, log, k);
      SaveAlike(x, Upto(x, s, log, k), p, log[k]);
    }
  }

  lemma {:induction false} AlikeIsBetween(x: Library, s: Store, log: seq<Incoming>, k: nat, p: Store, t: Store)
    requires k <= |log| && Between(x, s, log, k, p) && Valid(t) && Alike(p, t)
    ensures Between(x, s, log, k, t)
  {
    if k < |log| { SaveAlike(x, p, t, log[k]); }
    forall m | Settled(x, p, m) ensures Settled(x, t, m) {}
  }

  lemma {:induction false} StatusIsBetween(x: Library, s: Store, log: seq<Incoming>, k: nat, p: Store, steps: seq<Step>)
    requires k <= |log| && Between(x, s, log, k, p) && AllStatus(steps)
    ensures AllWellFormed(steps) && Between(x, s, log, k, Run(x, p, steps))
  {
    StatusRun(x, p, steps);
    IntegrityHolds(x, p, steps);
    AlikeIsBetween(x, s, log, k, p, Run(x, p, steps));
  }

  lemma {:induction false} PartKeepsSettled(x: Library, s: Store, m: Incoming, t: Store, other: Incoming)
    requires IsPart(x, s, m, t) && Settled(x, s, other)
    ensures Settled(x, t, other)
  {
    if c: nat :| HasWritten(x, s, m, c, t) {
      RunWrites(x, s, m.blobs[..c]);
      RunKeepsSettled(x, s, Writes(m.blobs[..c]), other);
    } else {
      var c: nat :| HasFound(x, s, m, c, t);
      var w, f := Writes(m.blobs), Finds(Contacts(m.parties)[..c]);
      RunWrites(x, s, m.blobs);
      RunFinds(x, WriteBlobs(x, s, m.blobs), Contacts(m.parties)[..c]);
      RunKeepsSettled(x, s, w, other);
      RunKeepsSettled(x, WriteBlobs(x, s, m.blobs), f, other);
    }
  }

  lemma {:induction false} PartKeepsValid(x: Library, s: Store, m: Incoming, t: Store)
    requires IsPart(x, s, m, t) && Valid(s)
    ensures Valid(t)
  {
    if c: nat :| HasWritten(x, s, m, c, t) {
      RunWrites(x, s, m.blobs[..c]);
      IntegrityHolds(x, s, Writes(m.blobs[..c]));
    } else {
      var c: nat :| HasFound(x, s, m, c, t);
      RunWrites(x, s, m.blobs);
      IntegrityHolds(x, s, Writes(m.blobs));
      FindOrCreateAllExtends(WriteBlobs(x, s, m.blobs), Contacts(m.parties)[..c]);
    }
  }

  lemma {:induction false} PartIsBetween(x: Library, s: Store, log: seq<Incoming>, k: nat, p: Store, t: Store)
    requires k < |log| && Between(x, s, log, k, p) && IsPart(x, p, log[k], t)
    ensures Between(x, s, log, k, t)
  {
    PartKeepsValid(x, p, log[k], t);
    PartResumes(x, p, log[k], t);
    forall m | Settled(x, p, m) ensures Settled(x, t, m) {
      PartKeepsSettled(x, p, log[k], t, m);
    }
  }

  lemma {:induction false} OldIsSettled(x: Library, s: Store, account: nat, log: seq<Incoming>, k: nat, p: Store,
                                        i: nat)
    requires Valid(s) && ForAccount(s, account, log) && i < k <= |log| && Between(x, s, log, k, p)
    ensures Settled(x, p, log[i]) && Saver(x)(p, log[i]) == p
  {
    PassedIsSettled(x, s, account, log, i, k);
    SettledStays(x, p, log[i]);
  }

  /** Going over messages already passed changes nothing, and beyond them extends the pass. */
  lemma {:induction false} ThroughBetween(x: Library, s: Store, account: nat, log: seq<Incoming>, k: nat, p: Store,
                                          j: nat, n: nat)
    requires Valid(s) && ForAccount(s, account, log) && j <= k <= |log| && j <= n <= |log|
    requires Between(x, s, log, k, p)
    ensures n <= k ==> FoldTo(Saver(x), p, log, j, n) == p
    ensures n > k ==> Alike(FoldTo(Saver(x), p, log, j, n), Upto(x, s, log, n))
  {
    forall i | j <= i < k ensures Saver(x)(p, log[i]) == p {
      OldIsSettled(x, s, account, log, k, p, i);
    }
    SavesRespectAlike(x);
    FoldPast(Saver(x), Alike, s, log, k, p, j, n);
  }

  lemma {:induction false} WithinOld(x: Library, s: Store, account: nat, log: seq<Incoming>, k: nat, p: Store, i: nat,
                                     t: Store)
    requires Valid(s) && ForAccount(s, account, log) && i < k <= |log| && Between(x, s, log, k, p)
    requires WithinSave(x, p, log[i], t)
    ensures t == p
  {
    OldIsSettled(x, s, account, log, k, p, i);
    if IsPart(x, p, log[i], t) { SettledPart(x, p, log[i], t); }
  }

  lemma {:induction false} SaverKeepsValid(x: Library, s: Store, m: Incoming)
    requires Valid(s) && OneFrom(m)
    ensures Valid(Saver(x)(s, m))
  {
    CommittedLead(x, s, m);
    IntegrityHolds(x, s, Committed(x)(s, m));
  }

  lemma {:induction false} WithinNext(x: Library, s: Store, account: nat, log: seq<Incoming>, k: nat, p: Store,
                                      t: Store)
      returns (n: nat)
    requires Valid(s) && ForAccount(s, account, log) && k < |log| && Between(x, s, log, k, p)
    requires WithinSave(x, p, log[k], t)
    ensures n <= |log| && Between(x, s, log, n, t)
  {
    if IsPart(x, p, log[k], t) {
      PartIsBetween(x, s, log, k, p, t);
      n := k;
    } else {
      SaverKeepsValid(x, p, log[k]);
      LikeIsBetween(x, s, log, k + 1, t);
      n := k + 1;
    }
  }

  lemma {:induction false} ThroughIsValid(x: Library, s: Store, log: seq<Incoming>, j: nat, n: nat)
    requires Valid(s) && AllOneFrom(log) && n <= |log|
    ensures Valid(FoldTo(Saver(x), s, log, j, n))
  {
    LoopRuns(x, s, log, j, n);
    IntegrityHolds(x, s, LoopSteps(x, s, log, j, n));
  }

  /** Where a cut within the save of message `i` leaves the pass. */
  lemma {:induction false} WithinIsBetween(x: Library, s: Store, account: nat, log: seq<Incoming>, k: nat, p: Store,
                                           j: nat, i: nat, t: Store) returns (n: nat)
    requires Valid(s) && ForAccount(s, account, log) && j <= k <= |log| && j <= i < |log|
    requires Between(x, s, log, k, p) && WithinSave(x, FoldTo(Saver(x), p, log, j, i), log[i], t)
    ensures n <= |log| && Between(x, s, log, n, t)
  {
    ThroughBetween(x, s, account, log, k, p, j, i);
    if i < k {
      WithinOld(x, s, account, log, k, p, i, t);
      n := k;
    } else if i == k {
      n := WithinNext(x, s, account, log, k, p, t);
    } else {
      ThroughIsValid(x, p, log, j, i);
      LikeIsBetween(x, s, log, i, FoldTo(Saver(x), p, log, j, i));
      n := WithinNext(x, s, account, log, i, FoldTo(Saver(x), p, log, j, i), t);
    }
  }

  /** A loop over a window that starts within the pass, cut off after any of its steps, leaves a pass. */
  lemma {:induction false} LoopIsBetween(x: Library, s: Store, account: nat, log: seq<Incoming>, k: nat, p: Store,
                                         j: nat, n: nat, c: nat) returns (r: nat, t: Store)
    requires Valid(s) && ForAccount(s, account, log) && j <= k <= |log| && j <= n <= |log|
    requires Between(x, s, log, k, p) && c <= |LoopSteps(x, p, log, j, n)|
    ensures Leads(x, p, LoopSteps(x, p, log, j, n)[..c], t) && r <= |log| && Between(x, s, log, r, t)
  {
    if j == n {
      r, t := k, p;
    } else {
      var i;
      i, t := CutIsWithin(x, p, log, j, n, c);
      r := WithinIsBetween(x, s, account, log, k, p, j, i, t);
    }
  }

  // ---------------------------------------------------------------- runs stopped anywhere

  /** A run sees the first `visible` messages, is stopped after so many committed steps (None: never), and
      may leave status rows when it has ended. */
  datatype Halted = Halted(visible: nat, stop: Option<nat>, recorded: seq<Step>)

  /** The steps it would commit if it were not stopped. */
  ghost function WholeRun(x: Library, s: Store, start: TableStart, log: seq<Incoming>, visible: nat): seq<Step> {
    var w := Window(start, s, |log|, Pass(visible, |log|));
    LoopSteps(x, s, log, w.0, w.1)
  }

  /** They are those of the loop of saves over what the run visits. */
  lemma {:induction false} WholeRunIsLoop(x: Library, s: Store, account: nat, start: TableStart, log: seq<Incoming>,
                                          visible: nat)
    requires Valid(s) && ForAccount(s, account, log)
    ensures Leads(x, s, WholeRun(x, s, start, log, visible),
                 SaveEach(x, s, Visited(start, s, log, Pass(visible, |log|))).store)
  {
    var w := Window(start, s, |log|, Pass(visible, |log|));
    LoopRuns(x, s, log, w.0, w.1);
    FoldToFolds(Saver(x), s, log, w.0, w.1);
    SliceForAccount(s, account, log, w.0, w.1);
    SaveEachFolds(x, s, account, log[w.0..w.1]);
  }

  ghost function CutTo(steps: seq<Step>, stop: Option<nat>): seq<Step> {
    if stop.None? then steps else steps[..AtMost(stop.value, |steps|)]
  }

  lemma {:induction false} WholeRunIsWellFormed(x: Library, s: Store, start: TableStart, log: seq<Incoming>,
                                                visible: nat)
    requires AllOneFrom(log)
    ensures AllWellFormed(WholeRun(x, s, start, log, visible))
  {
    var w := Window(start, s, |log|, Pass(visible, |log|));
    LoopRuns(x, s, log, w.0, w.1);
  }

  ghost function AfterHalted(x: Library, s: Store, start: TableStart, log: seq<Incoming>, h: Halted): Store
    requires AllOneFrom(log) && AllStatus(h.recorded)
  {
    WholeRunIsWellFormed(x, s, start, log, h.visible);
    Run(x, Run(x, s, CutTo(WholeRun(x, s, start, log, h.visible), h.stop)), h.recorded)
  }

  ghost predicate AllHalted(hs: seq<Halted>) {
    forall k :: 0 <= k < |hs| ==> AllStatus(hs[k].recorded)
  }

  ghost function AfterHalts(x: Library, s: Store, start: TableStart, log: seq<Incoming>, hs: seq<Halted>): Store
    requires AllOneFrom(log) && AllHalted(hs)
    decreases |hs|
  {
    if hs == [] then s else
      AfterHalted(x, AfterHalts(x, s, start, log, hs[..|hs| - 1]), start, log, hs[|hs| - 1])
  }

  /** They leave the whole database, but for the status table, as one uninterrupted loop of saves does. */
  ghost predicate LeaveWhole(x: Library, s: Store, start: TableStart, log: seq<Incoming>, hs: seq<Halted>)
    requires AllOneFrom(log) && AllHalted(hs)
  {
    Alike(SaveEach(x, s, log).store, AfterHalts(x, s, start, log, hs))
  }

  /** They leave it as a pass does that ends after `n` messages. */
  ghost predicate LeavePart(x: Library, s: Store, start: TableStart, log: seq<Incoming>, hs: seq<Halted>, n: nat)
    requires AllOneFrom(log) && AllHalted(hs) && n <= |log|
  {
    AfterHalts(x, s, start, log, hs) == Upto(x, s, log, n)
  }

  /** The last run saw the whole log and was not stopped. */
  predicate EndsWhole(hs: seq<Halted>, n: nat) {
    hs != [] && hs[|hs| - 1].visible >= n && hs[|hs| - 1].stop.None?
  }

  /** Where a run begins depends on the messages alone. */
  ghost predicate SeesMessages(start: TableStart) {
    forall s: Store, t: Store, n: nat :: s.messages == t.messages ==> start(s, n) == start(t, n)
  }

  /** Whatever runs were stopped after whichever committed step, once a run completes the whole database,
      but for the status table, is that of one uninterrupted pass. */
  ghost predicate WholeAfterAny(x: Library, s: Store, start: TableStart, log: seq<Incoming>)
    requires AllOneFrom(log)
  {
    forall hs: seq<Halted> :: AllHalted(hs) && EndsWhole(hs, |log|) ==> LeaveWhole(x, s, start, log, hs)
  }

  /** With `k` messages stored and so many visible, a run begins within those stored or leaves out only what
      is settled. */
  ghost predicate OmitsSettled(x: Library, s: Store, start: TableStart, log: seq<Incoming>, k: nat, seen: nat)
    requires k <= |log| && seen <= |log|
  {
    forall i :: k <= i < AtMost(start(Upto(x, s, log, k), seen), seen) ==> Settled(x, Upto(x, s, log, k), log[i])
  }

  ghost predicate NeverOmits(x: Library, s: Store, start: TableStart, log: seq<Incoming>) {
    forall k: nat, seen: nat :: k <= |log| && seen <= |log| ==> OmitsSettled(x, s, start, log, k, seen)
  }

  lemma {:induction false} OmittingChangesNothing(x: Library, s: Store, log: seq<Incoming>, k: nat, p: Store)
    requires k < |log| && Between(x, s, log, k, p) && Settled(x, Upto(x, s, log, k), log[k])
    ensures Alike(Upto(x, s, log, k), p)
  {
    UptoNext(x, s, log, k);
    SettledStays(x, Upto(x, s, log, k), log[k]);
    SettledStays(x, p, log[k]);
  }

  lemma {:induction false} OmitIsBetween(x: Library, s: Store, log: seq<Incoming>, k: nat, p: Store, j: nat)
    requires k < j <= |log| && Between(x, s, log, k, p)
    requires forall i :: k <= i < j ==> Settled(x, Upto(x, s, log, k), log[i])
    ensures Between(x, s, log, j, p)
  {
    OmittingChangesNothing(x, s, log, k, p);
    PassSettled(x, s, log, k, j);
    LikeIsBetween(x, s, log, j, p);
  }

  lemma {:induction false} StartIsBetween(x: Library, s: Store, start: TableStart, log: seq<Incoming>, k: nat, p: Store,
                                          visible: nat) returns (r: nat)
    requires k <= |log| && Between(x, s, log, k, p) && SeesMessages(start) && NeverOmits(x, s, start, log)
    ensures Window(start, p, |log|, Pass(visible, |log|)).0 <= r <= |log| && Between(x, s, log, r, p)
  {
    var seen := AtMost(visible, |log|);
    var from := AtMost(start(p, seen), seen);
    assert start(p, seen) == start(Upto(x, s, log, k), seen);
    if from > k {
      assert OmitsSettled(x, s, start, log, k, seen);
      OmitIsBetween(x, s, log, k, p, from);
      r := from;
    } else {
      r := k;
    }
  }

  lemma {:induction false} WholeIsBetween(x: Library, s: Store, account: nat, log: seq<Incoming>, k: nat, p: Store,
                                          j: nat) returns (t: Store)
    requires Valid(s) && ForAccount(s, account, log) && j <= k <= |log| && Between(x, s, log, k, p)
    ensures Leads(x, p, LoopSteps(x, p, log, j, |log|), t) && Between(x, s, log, |log|, t)
  {
    t := FoldTo(Saver(x), p, log, j, |log|);
    LoopRuns(x, p, log, j, |log|);
    ThroughIsValid(x, p, log, j, |log|);
    ThroughBetween(x, s, account, log, k, p, j, |log|);
    if k < |log| { LikeIsBetween(x, s, log, |log|, t); }
  }

  lemma {:induction false} CutToIsPrefix(steps: seq<Step>, stop: Option<nat>) returns (c: nat)
    ensures c <= |steps| && CutTo(steps, stop) == steps[..c]
  {
    c := if stop.None? then |steps| else AtMost(stop.value, |steps|);
  }

  lemma {:induction false} CutLoopIsBetween(x: Library, s: Store, account: nat, log: seq<Incoming>, k: nat, p: Store,
                                            j: nat, n: nat, stop: Option<nat>) returns (r: nat, t: Store)
    requires Valid(s) && ForAccount(s, account, log) && j <= k <= |log| && j <= n <= |log|
    requires Between(x, s, log, k, p)
    ensures Leads(x, p, CutTo(LoopSteps(x, p, log, j, n), stop), t) && r <= |log| && Between(x, s, log, r, t)
    ensures n == |log| && stop.None? ==> r == |log|
  {
    if n == |log| && stop.None? {
      t := WholeIsBetween(x, s, account, log, k, p, j);
      r := |log|;
    } else {
      var c := CutToIsPrefix(LoopSteps(x, p, log, j, n), stop);
      r, t := LoopIsBetween(x, s, account, log, k, p, j, n, c);
    }
  }

  lemma {:induction false} CutRunIsBetween(x: Library, s: Store, account: nat, start: TableStart, log: seq<Incoming>,
                                           k: nat, p: Store, visible: nat, stop: Option<nat>)
      returns (r: nat, t: Store)
    requires Valid(s) && ForAccount(s, account, log) && k <= |log| && Between(x, s, log, k, p)
    requires SeesMessages(start) && NeverOmits(x, s, start, log)
    ensures Leads(x, p, CutTo(WholeRun(x, p, start, log, visible), stop), t)
    ensures r <= |log| && Between(x, s, log, r, t)
    ensures visible >= |log| && stop.None? ==> r == |log|
  {
    var w := Window(start, p, |log|, Pass(visible, |log|));
    var from := StartIsBetween(x, s, start, log, k, p, visible);
    r, t := CutLoopIsBetween(x, s, account, log, from, p, w.0, w.1, stop);
  }

  lemma {:induction false} HaltedIsBetween(x: Library, s: Store, account: nat, start: TableStart, log: seq<Incoming>,
                                           k: nat, p: Store, h: Halted) returns (r: nat)
    requires Valid(s) && ForAccount(s, account, log) && k <= |log| && Between(x, s, log, k, p) && AllStatus(h.recorded)
    requires SeesMessages(start) && NeverOmits(x, s, start, log)
    ensures r <= |log| && Between(x, s, log, r, AfterHalted(x, p, start, log, h))
    ensures h.visible >= |log| && h.stop.None? ==> r == |log|
  {
    var t;
    r, t := CutRunIsBetween(x, s, account, start, log, k, p, h.visible, h.stop);
    StatusIsBetween(x, s, log, r, t, h.recorded);
  }

  lemma {:induction false} HaltsAreBetween(x: Library, s: Store, account: nat, start: TableStart, log: seq<Incoming>,
                                           hs: seq<Halted>) returns (k: nat)
    requires Valid(s) && ForAccount(s, account, log) && AllHalted(hs)
    requires SeesMessages(start) && NeverOmits(x, s, start, log)
    ensures k <= |log| && Between(x, s, log, k, AfterHalts(x, s, start, log, hs))
    ensures EndsWhole(hs, |log|) ==> k == |log|
    decreases |hs|
  {
    if hs == [] {
      k := 0;
      LikeIsBetween(x, s, log, 0, s);
    } else {
      var h := HaltsAreBetween(x, s, account, start, log, hs[..|hs| - 1]);
      k := HaltedIsBetween(x, s, account, start, log, h, AfterHalts(x, s, start, log, hs[..|hs| - 1]), hs[|hs| - 1]);
    }
  }

  lemma {:induction false} HaltsAreOneLoop(x: Library, s: Store, account: nat, start: TableStart, log: seq<Incoming>,
                                           hs: seq<Halted>)
    requires Valid(s) && ForAccount(s, account, log) && AllHalted(hs) && EndsWhole(hs, |log|)
    requires SeesMessages(start) && NeverOmits(x, s, start, log)
    ensures LeaveWhole(x, s, start, log, hs)
  {
    var k := HaltsAreBetween(x, s, account, start, log, hs);
    UptoIsLoop(x, s, account, log, |log|);
    assert log[..|log|] == log;
  }

  /** When runs omit only what is settled, stopping them after any of their steps, inside a save too, does
      no harm. */
  lemma {:induction false} WholeWhenSettled(x: Library, s: Store, account: nat, start: TableStart, log: seq<Incoming>)
    requires Valid(s) && ForAccount(s, account, log) && SeesMessages(start) && NeverOmits(x, s, start, log)
    ensures AllOneFrom(log) && WholeAfterAny(x, s, start, log)
  {
    forall hs: seq<Halted> | AllHalted(hs) && EndsWhole(hs, |log|) ensures LeaveWhole(x, s, start, log, hs) {
      HaltsAreOneLoop(x, s, account, start, log, hs);
    }
  }

  // ---------------------------------------------------------------- two particular runs

  lemma {:induction false} FirstSteps(x: Library, s: Store, ms: seq<Incoming>, n: nat)
    requires AllOneFrom(ms) && n <= |ms|
    ensures var steps := LoopSteps(x, s, ms, 0, n);
            && |steps| <= |LoopSteps(x, s, ms, 0, |ms|)|
            && Leads(x, s, LoopSteps(x, s, ms, 0, |ms|)[..|steps|], Upto(x, s, ms, n))
  {
    StepsPrefix(Saver(x), Committed(x), s, ms, 0, n, |ms|);
    LoopRuns(x, s, ms, 0, n);
    FoldToFolds(Saver(x), s, ms, 0, n);
    assert ms[0..n] == ms[..n];
  }

  lemma {:induction false} WholeFromFirst(x: Library, s: Store, start: TableStart, ms: seq<Incoming>)
    requires start(s, |ms|) == 0
    ensures WholeRun(x, s, start, ms, |ms|) == LoopSteps(x, s, ms, 0, |ms|)
  {
    assert Window(start, s, |ms|, Pass(|ms|, |ms|)) == (0, |ms|);
  }

  lemma {:induction false} HaltedLeaves(x: Library, s: Store, start: TableStart, ms: seq<Incoming>, steps: seq<Step>,
                                        c: nat, t: Store)
    requires AllOneFrom(ms) && steps == WholeRun(x, s, start, ms, |ms|) && c <= |steps| && Leads(x, s, steps[..c], t)
    ensures AfterHalted(x, s, start, ms, Halted(|ms|, Some(c), [])) == t
  {
    assert CutTo(steps, Some(c)) == steps[..c];
  }

  /** A run that may save everything, stopped when `n` messages are saved. */
  lemma {:induction false} StopAfter(x: Library, s: Store, start: TableStart, ms: seq<Incoming>, n: nat)
      returns (h: Halted)
    requires AllOneFrom(ms) && n <= |ms| && start(s, |ms|) == 0
    ensures h.recorded == [] && AfterHalted(x, s, start, ms, h) == Upto(x, s, ms, n)
  {
    var c := |LoopSteps(x, s, ms, 0, n)|;
    FirstSteps(x, s, ms, n);
    WholeFromFirst(x, s, start, ms);
    HaltedLeaves(x, s, start, ms, LoopSteps(x, s, ms, 0, |ms|), c, Upto(x, s, ms, n));
    h := Halted(|ms|, Some(c), []);
  }

  /** A run that begins past the end changes nothing. */
  lemma {:induction false} OmitsAll(x: Library, u: Store, start: TableStart, ms: seq<Incoming>)
    requires AllOneFrom(ms) && start(u, |ms|) >= |ms|
    ensures AfterHalted(x, u, start, ms, Halted(|ms|, None, [])) == u
  {
    assert Window(start, u, |ms|, Pass(|ms|, |ms|)) == (|ms|, |ms|);
  }

  lemma {:induction false} OneMoreHalt(x: Library, s: Store, start: TableStart, ms: seq<Incoming>, hs: seq<Halted>,
                                       h: Halted)
    requires AllOneFrom(ms) && AllHalted(hs) && AllStatus(h.recorded)
    ensures AllHalted(hs + [h])
    ensures AfterHalts(x, s, start, ms, hs + [h]) == AfterHalted(x, AfterHalts(x, s, start, ms, hs), start, ms, h)
  {
    assert (hs + [h])[..|hs|] == hs;
  }

  /** The first stopped when `n` messages are saved, the second beginning past the end. */
  lemma {:induction false} StopThenOmit(x: Library, s: Store, start: TableStart, ms: seq<Incoming>, n: nat, u: Store)
      returns (hs: seq<Halted>)
    requires AllOneFrom(ms) && n <= |ms| && u == Upto(x, s, ms, n)
    requires start(s, |ms|) == 0 && start(u, |ms|) >= |ms|
    ensures AllHalted(hs) && EndsWhole(hs, |ms|) && LeavePart(x, s, start, ms, hs, n)
  {
    var first := StopAfter(x, s, start, ms, n);
    var last := Halted(|ms|, None, []);
    OneMoreHalt(x, s, start, ms, [], first);
    OneMoreHalt(x, s, start, ms, [] + [first], last);
    OmitsAll(x, u, start, ms);
    hs := [] + [first] + [last];
  }

  lemma {:induction false} LastIsSettled(x: Library, s: Store, account: nat, ms: seq<Incoming>, t: Store)
    requires Valid(s) && ForAccount(s, account, ms) && ms != [] && Alike(SaveEach(x, s, ms).store, t)
    ensures Settled(x, t, ms[|ms| - 1])
  {
    PassedIsSettled(x, s, account, ms, |ms| - 1, |ms|);
    UptoIsLoop(x, s, account, ms, |ms|);
    assert ms[..|ms|] == ms;
  }

  /** When a part of the pass is all of it, the last message came with that part. */
  lemma {:induction false} WholeCoversLast(x: Library, s: Store, account: nat, start: TableStart, ms: seq<Incoming>,
                                           hs: seq<Halted>, n: nat)
    requires Valid(s) && ForAccount(s, account, ms) && n < |ms| && AllHalted(hs)
    requires LeaveWhole(x, s, start, ms, hs) && LeavePart(x, s, start, ms, hs, n)
    ensures Covered(x, s, ms[..n], ms[|ms| - 1])
  {
    LastIsSettled(x, s, account, ms, Upto(x, s, ms, n));
    SettledIffCovered(x, s, account, ms, n, ms[|ms| - 1]);
  }

  /** Omitting messages of which the last, `m`, did not come with those `before` does harm. */
  lemma {:induction false} WholeCoversOmitted(x: Library, s: Store, account: nat, start: TableStart, ms: seq<Incoming>,
                                              before: seq<Incoming>, m: Incoming)
    requires Valid(s) && ForAccount(s, account, ms) && AllOneFrom(ms) && WholeAfterAny(x, s, start, ms)
    requires |before| < |ms| && before == ms[..|before|] && m == ms[|ms| - 1]
    requires start(s, |ms|) == 0 && start(Upto(x, s, ms, |before|), |ms|) >= |ms|
    ensures Covered(x, s, before, m)
  {
    var hs := StopThenOmit(x, s, start, ms, |before|, Upto(x, s, ms, |before|));
    WholeCoversLast(x, s, account, start, ms, hs, |before|);
  }

  lemma {:induction false} WholeCoversFirst(x: Library, s: Store, account: nat, start: TableStart, log: seq<Incoming>,
                                            ms: seq<Incoming>, i: nat, j: nat)
    requires i < j < |log| && ms == log[..j + 1]
    requires Valid(s) && ForAccount(s, account, ms) && AllOneFrom(ms) && WholeAfterAny(x, s, start, ms)
    requires start(s, |ms|) == 0 && start(Upto(x, s, ms, i + 1), |ms|) >= |ms|
    ensures Covered(x, s, log[..i + 1], log[j])
  {
    var before := log[..i + 1];
    assert before == ms[..i + 1];
    WholeCoversOmitted(x, s, account, start, ms, before, log[j]);
  }
}
