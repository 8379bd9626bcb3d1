/** What both sync loops have in common: a log that grows, a place to begin computed from what is
    stored, and passes that stop anywhere while others write. */
module SyncLoop {
  import opened Prelude
  import opened Schema
  import opened Saving
  import opened History
  import opened ResumableLog
  import opened Archive

  /** Where in the first so many messages of the log a pass begins, read from the tables. */
  type TableStart = (Store, nat) -> nat

  /** The same, read from the account's archive. */
  type ArchiveStart = (map<string, Message>, nat) -> nat

  /** On consistent databases the two agree. */
  ghost predicate ReadsArchive(start: TableStart, read: ArchiveStart, account: nat) {
    forall s, n :: Valid(s) ==> start(s, n) == read(Archived(s, account), n)
  }

  /** The messages a pass gets through. */
  function Visited(start: TableStart, s: Store, log: seq<Incoming>, p: Pass): seq<Incoming> {
    var w := Window(start, s, |log|, p);
    log[w.0..w.1]
  }

  // ---------------------------------------------------------------- passes while others write

  /** A pass, what others write before it, and what they write before each of its steps. Files and people
      of an earlier save that was cut off count among what is written before it. */
  datatype Shared = Shared(pass: Pass, before: seq<Step>, amid: Meanwhile)

  ghost predicate Mine(account: nat, r: Shared) {
    AllForeign(r.before, account) && NeverOwn(r.amid, account)
  }

  ghost predicate AllMine(account: nat, rs: seq<Shared>) {
    forall k :: 0 <= k < |rs| ==> Mine(account, rs[k])
  }

  /** Every message of the log is the account's. */
  predicate Owned(account: nat, log: seq<Incoming>) {
    forall k :: 0 <= k < |log| ==> log[k].account == account
  }

  ghost function SharedPass(x: Library, s: Store, account: nat, start: TableStart, log: seq<Incoming>, r: Shared): Tally
    requires Mine(account, r) && Owned(account, log)
  {
    var u := Run(x, s, r.before);
    SaveEachAmid(x, u, account, Visited(start, u, log, r.pass), r.amid)
  }

  ghost function AfterShared(x: Library, s: Store, account: nat, start: TableStart, log: seq<Incoming>, rs: seq<Shared>)
      : Store
    requires AllMine(account, rs) && Owned(account, log)
    decreases |rs|
  {
    if rs == [] then s else
      SharedPass(x, AfterShared(x, s, account, start, log, rs[..|rs| - 1]), account, start, log, rs[|rs| - 1]).store
  }

  /** The last pass saw the whole log, was not cut, and none of its saves was refused. */
  ghost predicate Completes(x: Library, s: Store, account: nat, start: TableStart, log: seq<Incoming>, rs: seq<Shared>)
    requires AllMine(account, rs) && Owned(account, log)
  {
    && rs != [] && rs[|rs| - 1].pass.visible >= |log| && rs[|rs| - 1].pass.cut >= |log|
    && SharedPass(x, AfterShared(x, s, account, start, log, rs[..|rs| - 1]), account, start, log,
                  rs[|rs| - 1]).error.None?
  }

  /** A pass stopped at once leaves what others wrote before it. */
  lemma {:induction false} StoppedAtOnce(x: Library, s: Store, account: nat, start: TableStart, log: seq<Incoming>,
                                         r: Shared)
    requires Mine(account, r) && Owned(account, log) && r.pass.cut == 0
    ensures SharedPass(x, s, account, start, log, r).store == Run(x, s, r.before)
  {
    assert Visited(start, Run(x, s, r.before), log, r.pass) == [];
  }

  /** How far a pass came: a refused save stops it. */
  ghost function Reached(t: Tally, p: Pass): Pass {
    if t.error.None? then p else Pass(p.visible, t.inserted + t.skipped)
  }

  ghost function AllReached(x: Library, s: Store, account: nat, start: TableStart, log: seq<Incoming>, rs: seq<Shared>)
      : (ps: seq<Pass>)
    requires AllMine(account, rs) && Owned(account, log)
    ensures |ps| == |rs|
    decreases |rs|
  {
    if rs == [] then [] else
      var t := AfterShared(x, s, account, start, log, rs[..|rs| - 1]);
      AllReached(x, s, account, start, log, rs[..|rs| - 1])
      + [Reached(SharedPass(x, t, account, start, log, rs[|rs| - 1]), rs[|rs| - 1].pass)]
  }

  /** One account's messages as an archive of a given source. */
  ghost predicate Holds(s: Store, account: nat, source: string, a: map<string, Message>) {
    Valid(s) && account in s.accounts && s.accounts[account].source == source && Archived(s, account) == a
  }

  /** A consistent database with nothing stored for the account. */
  ghost predicate Fresh(s: Store, account: nat) {
    Valid(s) && account in s.accounts && forall m :: m in s.messages ==> s.messages[m].account != account
  }

  lemma {:induction false} NothingArchived(s: Store, account: nat)
    requires forall m :: m in s.messages ==> s.messages[m].account != account
    ensures Archived(s, account) == map[]
  {
    assert forall e :: MessagesNamed(s.messages, account, e) == {};
  }

  lemma {:induction false} VisitedEntries(start: TableStart, s: Store, source: string, log: seq<Incoming>, p: Pass,
                                          c: nat)
    requires c <= |Visited(start, s, log, p)|
    ensures var w := Window(start, s, |log|, p);
            Entries(source, Visited(start, s, log, p)[..c]) == Entries(source, log)[w.0..w.0 + c]
  {
    var w := Window(start, s, |log|, p);
    assert log[w.0..w.1][..c] == log[w.0..w.0 + c];
    EntriesSlice(source, log, w.0, w.0 + c);
  }

  /** A pass that takes `c` messages reads as one cut there. */
  lemma {:induction false} CutAt<S>(start: (S, nat) -> nat, s: S, n: nat, p: Pass, t: Tally)
    requires var w := Window(start, s, n, p);
             var c := t.inserted + t.skipped; c <= w.1 - w.0 && (t.error.None? <==> c == w.1 - w.0)
    ensures var w := Window(start, s, n, p);
            Window(start, s, n, Reached(t, p)) == (w.0, w.0 + t.inserted + t.skipped)
  {
  }

  lemma {:induction false} ReadsAsTaken(start: TableStart, read: ArchiveStart, u: Store, a: map<string, Message>,
                                        source: string, log: seq<Incoming>, p: Pass, t: Tally)
    requires start(u, AtMost(p.visible, |log|)) == read(a, AtMost(p.visible, |log|))
    requires var ms := Visited(start, u, log, p);
             var c := t.inserted + t.skipped; c <= |ms| && (t.error.None? <==> c == |ms|)
    ensures ReadPass(read, a, Entries(source, log), Reached(t, p))
         == PutAll(a, Entries(source, Visited(start, u, log, p)[..t.inserted + t.skipped]))
  {
    VisitedEntries(start, u, source, log, p, t.inserted + t.skipped);
    CutAt(read, a, |log|, p, t);
  }

  lemma {:induction false} TookHolds(u: Store, account: nat, ms: seq<Incoming>, t: Tally)
    requires account in u.accounts && Took(u, account, ms, t)
    ensures var source := u.accounts[account].source;
            Holds(t.store, account, source, PutAll(Archived(u, account), Entries(source, ms)))
  {
  }

  lemma {:induction false} TookAsRead(u: Store, account: nat, start: TableStart, read: ArchiveStart, log: seq<Incoming>,
                                      p: Pass, t: Tally)
    requires account in u.accounts && TookUntilRefused(u, account, Visited(start, u, log, p), t)
    requires start(u, AtMost(p.visible, |log|)) == read(Archived(u, account), AtMost(p.visible, |log|))
    ensures var source := u.accounts[account].source;
            Holds(t.store, account, source,
                  ReadPass(read, Archived(u, account), Entries(source, log), Reached(t, p)))
  {
    TookHolds(u, account, Visited(start, u, log, p)[..t.inserted + t.skipped], t);
    ReadsAsTaken(start, read, u, Archived(u, account), u.accounts[account].source, log, p, t);
  }

  lemma {:induction false} SharedPassReads(x: Library, s: Store, account: nat, start: TableStart, read: ArchiveStart,
                                           log: seq<Incoming>, r: Shared)
    requires Valid(s) && ForAccount(s, account, log) && Mine(account, r) && ReadsArchive(start, read, account)
    ensures Owned(account, log)
    ensures var source := s.accounts[account].source;
            var t := SharedPass(x, s, account, start, log, r);
            Holds(t.store, account, source,
                  ReadPass(read, Archived(s, account), Entries(source, log), Reached(t, r.pass)))
  {
    ForeignRun(x, s, r.before, account);
    var u := Run(x, s, r.before);
    var w := Window(start, u, |log|, r.pass);
    SliceForAccount(u, account, log, w.0, w.1);
    SaveEachArchives(x, u, account, Visited(start, u, log, r.pass), r.amid);
    TookAsRead(u, account, start, read, log, r.pass, SharedPass(x, s, account, start, log, r));
  }

  lemma {:induction false} NextPassReads(x: Library, t: Store, account: nat, source: string, a: map<string, Message>,
                                         start: TableStart, read: ArchiveStart, log: seq<Incoming>, r: Shared)
    requires Holds(t, account, source, a) && ForAccount(t, account, log) && Owned(account, log) && Mine(account, r)
    requires ReadsArchive(start, read, account)
    ensures var u := SharedPass(x, t, account, start, log, r);
            Holds(u.store, account, source, ReadPass(read, a, Entries(source, log), Reached(u, r.pass)))
  {
    SharedPassReads(x, t, account, start, read, log, r);
  }

  /** On the account's messages the passes are passes over its archive, each as far as it came. */
  lemma {:induction false} SharedReads(x: Library, s: Store, account: nat, start: TableStart, read: ArchiveStart,
                                       log: seq<Incoming>, rs: seq<Shared>)
    requires Valid(s) && ForAccount(s, account, log) && AllMine(account, rs) && ReadsArchive(start, read, account)
    ensures Owned(account, log)
    ensures var source := s.accounts[account].source;
            Holds(AfterShared(x, s, account, start, log, rs), account, source,
                  ReadPasses(read, Archived(s, account), Entries(source, log),
                             AllReached(x, s, account, start, log, rs)))
    decreases |rs|
  {
    if rs != [] {
      var front, source, log' := rs[..|rs| - 1], s.accounts[account].source, Entries(s.accounts[account].source, log);
      SharedReads(x, s, account, start, read, log, front);
      var ps := AllReached(x, s, account, start, log, front);
      NextPassReads(x, AfterShared(x, s, account, start, log, front), account, source,
                    ReadPasses(read, Archived(s, account), log', ps), start, read, log, rs[|rs| - 1]);
      var last := AllReached(x, s, account, start, log, rs)[|rs| - 1];
      OneMorePass(read, Archived(s, account), log', ps, last);
      assert AllReached(x, s, account, start, log, rs) == ps + [last];
    }
  }

  lemma {:induction false} CompletesReached(x: Library, s: Store, account: nat, start: TableStart, log: seq<Incoming>,
                                            rs: seq<Shared>)
    requires AllMine(account, rs) && Owned(account, log) && Completes(x, s, account, start, log, rs)
    ensures EndsComplete(AllReached(x, s, account, start, log, rs), |log|)
  {
  }

  /** So when the start is harmless the account holds a prefix of its log after any passes, and all of it
      after a complete one. */
  lemma {:induction false} SharedKeepPrefix(x: Library, s: Store, account: nat, start: TableStart, read: ArchiveStart,
                                            log: seq<Incoming>, rs: seq<Shared>) returns (k: nat)
    requires Valid(s) && ForAccount(s, account, log) && Archived(s, account) == map[] && AllMine(account, rs)
    requires ReadsArchive(start, read, account) && Harmless(read, Entries(s.accounts[account].source, log))
    ensures Owned(account, log)
    ensures k <= |log|
    ensures var source := s.accounts[account].source;
            Holds(AfterShared(x, s, account, start, log, rs), account, source, Keep(Entries(source, log)[..k]))
    ensures Completes(x, s, account, start, log, rs) ==> k == |log|
  {
    SharedReads(x, s, account, start, read, log, rs);
    var ps := AllReached(x, s, account, start, log, rs);
    k := PassesKeepPrefix(read, Entries(s.accounts[account].source, log), ps);
    if Completes(x, s, account, start, log, rs) { CompletesReached(x, s, account, start, log, rs); }
  }

  /** One more pass never leaves less. */
  lemma {:induction false} OneMoreExtends(x: Library, s: Store, account: nat, start: TableStart, read: ArchiveStart,
                                          log: seq<Incoming>, rs: seq<Shared>) returns (k: nat, n: nat)
    requires Valid(s) && ForAccount(s, account, log) && Archived(s, account) == map[] && AllMine(account, rs)
    requires ReadsArchive(start, read, account) && Harmless(read, Entries(s.accounts[account].source, log)) && rs != []
    ensures Owned(account, log) && k <= n <= |log|
    ensures var source := s.accounts[account].source;
            && Holds(AfterShared(x, s, account, start, log, rs[..|rs| - 1]), account, source,
                     Keep(Entries(source, log)[..k]))
            && Holds(AfterShared(x, s, account, start, log, rs), account, source, Keep(Entries(source, log)[..n]))
  {
    var source, front := s.accounts[account].source, rs[..|rs| - 1];
    k := SharedKeepPrefix(x, s, account, start, read, log, front);
    var t := AfterShared(x, s, account, start, log, front);
    NextPassReads(x, t, account, source, Keep(Entries(source, log)[..k]), start, read, log, rs[|rs| - 1]);
    var last := Reached(SharedPass(x, t, account, start, log, rs[|rs| - 1]), rs[|rs| - 1].pass);
    n := PassExtends(read, Entries(source, log), k, last);
  }

  /** Passes with nobody else writing. */
  ghost function Alone(ps: seq<Pass>): (rs: seq<Shared>)
    ensures |rs| == |ps|
  {
    seq(|ps|, k requires 0 <= k < |ps| => Shared(ps[k], [], Quiet()))
  }

  lemma {:induction false} AloneIsMine(account: nat, ps: seq<Pass>)
    ensures AllMine(account, Alone(ps))
  {
    QuietIsForeign(account);
    forall k | 0 <= k < |ps| ensures Mine(account, Alone(ps)[k]) {
      assert Alone(ps)[k] == Shared(ps[k], [], Quiet());
    }
  }

  /** Such a pass is never refused. */
  lemma {:induction false} AlonePass(x: Library, s: Store, account: nat, start: TableStart, log: seq<Incoming>, p: Pass)
    requires Valid(s) && ForAccount(s, account, log)
    ensures Owned(account, log) && Mine(account, Shared(p, [], Quiet()))
    ensures SharedPass(x, s, account, start, log, Shared(p, [], Quiet())) == SaveEach(x, s, Visited(start, s, log, p))
    ensures SharedPass(x, s, account, start, log, Shared(p, [], Quiet())).error.None?
  {
    var w := Window(start, s, |log|, p);
    QuietIsForeign(account);
    SliceForAccount(s, account, log, w.0, w.1);
    SaveEachQuietly(x, s, account, Visited(start, s, log, p));
    SaveEachAlone(x, s, account, Visited(start, s, log, p));
  }

  lemma {:induction false} StillForAccount(x: Library, s: Store, account: nat, start: TableStart, read: ArchiveStart,
                                           log: seq<Incoming>, rs: seq<Shared>)
    requires Valid(s) && ForAccount(s, account, log) && AllMine(account, rs) && ReadsArchive(start, read, account)
    ensures Owned(account, log)
    ensures Valid(AfterShared(x, s, account, start, log, rs))
            && ForAccount(AfterShared(x, s, account, start, log, rs), account, log)
  {
    SharedReads(x, s, account, start, read, log, rs);
  }

  lemma {:induction false} LastReached(x: Library, s: Store, account: nat, start: TableStart, log: seq<Incoming>,
                                       rs: seq<Shared>, front: seq<Shared>, r: Shared)
    requires AllMine(account, rs) && Owned(account, log) && rs == front + [r]
    ensures AllMine(account, front) && Mine(account, r)
    ensures var t := SharedPass(x, AfterShared(x, s, account, start, log, front), account, start, log, r);
            && AllReached(x, s, account, start, log, rs)
               == AllReached(x, s, account, start, log, front) + [Reached(t, r.pass)]
            && (r.pass.visible >= |log| && r.pass.cut >= |log| && t.error.None?
                ==> Completes(x, s, account, start, log, rs))
  {
    assert front == rs[..|rs| - 1] && r == rs[|rs| - 1];
    assert forall k :: 0 <= k < |front| ==> front[k] == rs[k];
  }

  lemma {:induction false} NextNotRefused(x: Library, s: Store, account: nat, start: TableStart, read: ArchiveStart,
                                          log: seq<Incoming>, rs: seq<Shared>, p: Pass)
    requires Valid(s) && ForAccount(s, account, log) && AllMine(account, rs) && ReadsArchive(start, read, account)
    ensures Owned(account, log) && Mine(account, Shared(p, [], Quiet()))
    ensures SharedPass(x, AfterShared(x, s, account, start, log, rs), account, start, log,
                       Shared(p, [], Quiet())).error.None?
  {
    StillForAccount(x, s, account, start, read, log, rs);
    AlonePass(x, AfterShared(x, s, account, start, log, rs), account, start, log, p);
  }

  lemma {:induction false} AloneNext(front: seq<Pass>, p: Pass)
    ensures Alone(front + [p]) == Alone(front) + [Shared(p, [], Quiet())]
  {
  }

  /** And alone every pass comes as far as it is let. */
  lemma {:induction false} AloneReaches(x: Library, s: Store, account: nat, start: TableStart, read: ArchiveStart,
                                        log: seq<Incoming>, ps: seq<Pass>)
    requires Valid(s) && ForAccount(s, account, log) && ReadsArchive(start, read, account)
    ensures Owned(account, log) && AllMine(account, Alone(ps))
    ensures AllReached(x, s, account, start, log, Alone(ps)) == ps
    ensures EndsComplete(ps, |log|) ==> Completes(x, s, account, start, log, Alone(ps))
    decreases |ps|
  {
    AloneIsMine(account, ps);
    if ps != [] {
      var front, p := ps[..|ps| - 1], ps[|ps| - 1];
      assert ps == front + [p];
      AloneReaches(x, s, account, start, read, log, front);
      AloneNext(front, p);
      NextNotRefused(x, s, account, start, read, log, Alone(front), p);
      LastReached(x, s, account, start, log, Alone(ps), Alone(front), Shared(p, [], Quiet()));
    }
  }
}
