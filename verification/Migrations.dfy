/** The migration runner (core/db/migrations/__init__.py): numbered files in name order, skipped when
    their number is not above the highest recorded one at the start of the run. A directory that grows
    and a run that is cut off are alike here: either way a run goes through a prefix of the files. */
module Migrations {
  import opened Prelude
  import opened UidResponse

  /** A directory entry, and whether SQLite accepts its script a second time; one that begins with a
      plain CREATE TABLE, like 001_init.sql, it does not. */
  datatype Entry = Entry(name: string, sql: string, repeatable: bool)

  /** A directory entry and the version its name gives, if it is a migration. */
  datatype File = File(name: string, version: Option<nat>, sql: string, repeatable: bool)

  /** The length of the leading run of digits. */
  function DigitsOf(name: string): (n: nat)
    ensures n <= |name| && forall k :: 0 <= k < n ==> IsDigit(name[k])
  {
    if name == [] || !IsDigit(name[0]) then 0 else
      var n := DigitsOf(name[1..]);
      assert forall k :: 0 < k <= n ==> name[k] == name[1..][k - 1];
      1 + n
  }

  /** A file name of digits, an underscore, at least one character and ".sql". */
  function VersionOf(name: string): Option<nat> {
    var n := DigitsOf(name);
    if n > 0 && |name| >= n + 6 && name[n] == '_' && name[|name| - 4..] == ".sql" then Some(IntOf(name[..n])) else None
  }

  /** `name` is those digits, an underscore, something, and ".sql". */
  predicate NamedSo(name: string, digits: string, rest: string) {
    && digits != "" && rest != "" && name == digits + "_" + rest + ".sql"
    && (forall k :: 0 <= k < |digits| ==> IsDigit(digits[k]))
  }

  lemma {:induction false} DigitsEnd(digits: string, rest: string)
    requires forall k :: 0 <= k < |digits| ==> IsDigit(digits[k])
    requires rest != "" && !IsDigit(rest[0])
    ensures DigitsOf(digits + rest) == |digits|
  {
    if digits == "" {
      assert digits + rest == rest;
    } else {
      assert (digits + rest)[1..] == digits[1..] + rest;
      DigitsEnd(digits[1..], rest);
    }
  }

  /** A file is a migration exactly when it is named so, and its version is then the number in front. */
  lemma {:induction false} NamedIsVersion(name: string, digits: string, rest: string)
    requires NamedSo(name, digits, rest)
    ensures VersionOf(name) == Some(IntOf(digits))
  {
    assert name == digits + ("_" + rest + ".sql");
    DigitsEnd(digits, "_" + rest + ".sql");
    assert name[..|digits|] == digits;
  }

  lemma {:induction false} VersionIsNamed(name: string) returns (digits: string, rest: string)
    requires VersionOf(name).Some?
    ensures NamedSo(name, digits, rest)
  {
    var n := DigitsOf(name);
    digits, rest := name[..n], name[n + 1..|name| - 4];
    assert name == name[..n] + [name[n]] + name[n + 1..|name| - 4] + name[|name| - 4..];
  }

  lemma {:induction false} VersionIff(name: string)
    ensures VersionOf(name).Some? <==> exists digits, rest :: NamedSo(name, digits, rest)
    ensures forall digits, rest :: NamedSo(name, digits, rest) ==> VersionOf(name) == Some(IntOf(digits))
  {
    forall digits, rest | NamedSo(name, digits, rest) ensures VersionOf(name) == Some(IntOf(digits)) {
      NamedIsVersion(name, digits, rest);
    }
    if VersionOf(name).Some? {
      var digits, rest := VersionIsNamed(name);
    }
  }

  /** A directory listing, in ascending order of names. */
  function FilesOf(entries: seq<Entry>): (files: seq<File>)
    ensures |files| == |entries|
  {
    seq(|entries|, k requires 0 <= k < |entries| => FileOf(entries[k]))
  }

  function FileOf(e: Entry): File {
    File(e.name, VersionOf(e.name), e.sql, e.repeatable)
  }

  /** The `schema_version` rows, and the files whose scripts have run so far, in their order. */
  datatype Db = Db(rows: map<nat, string>, ran: seq<File>)

  const NEW := Db(map[], [])

  /** A run so far. Running a script again raises unless it is repeatable, and so does inserting a version
      that is already recorded. */
  datatype Run = Run(db: Db, newly: seq<nat>, failed: bool)

  function ApplyOne(applied: nat, r: Run, f: File): Run {
    var version := f.version;
    if version.None? || version.value <= applied then r
    else if f in r.db.ran && !f.repeatable then r.(failed := true)
    else
      var ran := r.db.ran + [f];
      if version.value in r.db.rows then Run(Db(r.db.rows, ran), r.newly, true)
      else Run(Db(r.db.rows[version.value := f.name], ran), r.newly + [version.value], false)
  }

  function ApplyFrom(applied: nat, db: Db, files: seq<File>): Run
    decreases |files|
  {
    if files == [] then Run(db, [], false) else
      var r := ApplyFrom(applied, db, files[..|files| - 1]);
      if r.failed then r else ApplyOne(applied, r, files[|files| - 1])
  }

  /** `current_version`. */
  function CurrentVersion(db: Db): nat {
    MaxOf(db.rows.Keys)
  }

  function Apply(db: Db, files: seq<File>): Run {
    ApplyFrom(CurrentVersion(db), db, files)
  }

  lemma {:induction false} FailureStays(applied: nat, db: Db, files: seq<File>, n: nat)
    requires n <= |files| && ApplyFrom(applied, db, files[..n]).failed
    ensures ApplyFrom(applied, db, files) == ApplyFrom(applied, db, files[..n])
    decreases |files|
  {
    if n == |files| {
      assert files[..n] == files;
    } else {
      assert files[..|files| - 1][..n] == files[..n];
      FailureStays(applied, db, files[..|files| - 1], n);
    }
  }

  lemma {:induction false} RunStep(applied: nat, db: Db, files: seq<File>, k: nat)
    requires k < |files| && !ApplyFrom(applied, db, files[..k]).failed
    ensures ApplyFrom(applied, db, files[..k + 1]) == ApplyOne(applied, ApplyFrom(applied, db, files[..k]), files[k])
    ensures (ApplyFrom(applied, db, files[..k + 1]).failed
             ==> ApplyFrom(applied, db, files) == ApplyFrom(applied, db, files[..k + 1]))
  {
    assert files[..k + 1][..k] == files[..k];
    if ApplyFrom(applied, db, files[..k + 1]).failed { FailureStays(applied, db, files, k + 1); }
  }

  method ApplyMigrations(db: Db, entries: seq<Entry>) returns (r: Run)
    ensures r == Apply(db, FilesOf(entries))
  {
    ghost var files := FilesOf(entries);
    var applied := CurrentVersion(db);
    r := Run(db, [], false);
    for k := 0 to |entries|
      invariant !r.failed && r == ApplyFrom(applied, db, files[..k])
    {
      RunStep(applied, db, files, k);
      var name, version := entries[k].name, VersionOf(entries[k].name);
      assert files[k] == FileOf(entries[k]);
      if version.None? || version.value <= applied {
        continue;
      }
      if FileOf(entries[k]) in r.db.ran && !entries[k].repeatable {
        r := r.(failed := true);
        return;
      }
      r := r.(db := r.db.(ran := r.db.ran + [FileOf(entries[k])]));
      if version.value in r.db.rows {
        r := r.(failed := true);
        return;
      }
      r := r.(db := r.db.(rows := r.db.rows[version.value := name]), newly := r.newly + [version.value]);
    }
    assert files[..|files|] == files;
  }

  // ---------------------------------------------------------------- what a run records and runs

  /** File `i` is a migration above `applied`. */
  predicate Pending(applied: nat, files: seq<File>, i: nat)
    requires i < |files|
  {
    files[i].version.Some? && files[i].version.value > applied
  }

  /** The pending files, in order. */
  function Scripts(applied: nat, files: seq<File>): seq<File>
    decreases |files|
  {
    if files == [] then [] else
      var front := Scripts(applied, files[..|files| - 1]);
      if Pending(applied, files, |files| - 1) then front + [files[|files| - 1]] else front
  }

  /** Some pending file has version `v`. */
  ghost predicate Brings(applied: nat, files: seq<File>, v: nat) {
    exists i :: 0 <= i < |files| && Pending(applied, files, i) && files[i].version == Some(v)
  }

  function Versions(files: seq<File>): (vs: seq<nat>)
    requires forall i :: 0 <= i < |files| ==> files[i].version.Some?
    ensures |vs| == |files|
  {
    seq(|files|, k requires 0 <= k < |files| => files[k].version.value)
  }

  lemma {:induction false} ScriptsArePending(applied: nat, files: seq<File>)
    ensures forall i :: 0 <= i < |Scripts(applied, files)| ==>
              Scripts(applied, files)[i] in files && Scripts(applied, files)[i].version.Some?
              && Scripts(applied, files)[i].version.value > applied
    decreases |files|
  {
    if files != [] {
      ScriptsArePending(applied, files[..|files| - 1]);
      assert files == files[..|files| - 1] + [files[|files| - 1]];
    }
  }

  /** A run that does not fail records and runs exactly the pending files, in order. */
  lemma {:induction false} RunRecords(applied: nat, db: Db, files: seq<File>)
    requires !ApplyFrom(applied, db, files).failed
    ensures var r := ApplyFrom(applied, db, files);
            && r.db.ran == db.ran + Scripts(applied, files)
            && (forall v :: v in r.db.rows <==> v in db.rows || Brings(applied, files, v))
    decreases |files|
  {
    if files != [] {
      var n := |files| - 1;
      var front := files[..n];
      RunRecords(applied, db, front);
      var r, s := ApplyFrom(applied, db, front), ApplyFrom(applied, db, files);
      assert forall i :: 0 <= i < n ==>
          Pending(applied, files, i) == Pending(applied, front, i) && files[i] == front[i];
      forall v ensures v in s.db.rows <==> v in db.rows || Brings(applied, files, v) {
        if v in r.db.rows && v !in db.rows {
          var i :| 0 <= i < n && Pending(applied, front, i) && front[i].version == Some(v);
          assert Pending(applied, files, i) && files[i].version == Some(v);
        }
        if Pending(applied, files, n) && files[n].version == Some(v) {
          assert v in s.db.rows;
        }
      }
    }
  }

  /** It reports their versions in that order, leaves the old rows, and puts the file's name in each new one. */
  lemma {:induction false} RunReports(applied: nat, db: Db, files: seq<File>)
    requires !ApplyFrom(applied, db, files).failed
    ensures forall i :: 0 <= i < |Scripts(applied, files)| ==> Scripts(applied, files)[i].version.Some?
    ensures var r := ApplyFrom(applied, db, files);
            && r.newly == Versions(Scripts(applied, files))
            && (forall v :: v in db.rows ==> v in r.db.rows && r.db.rows[v] == db.rows[v])
            && (forall v :: v in r.db.rows && v !in db.rows ==>
                  exists i :: 0 <= i < |files| && files[i].version == Some(v) && files[i].name == r.db.rows[v])
    decreases |files|
  {
    ScriptsArePending(applied, files);
    if files != [] {
      var n := |files| - 1;
      var front := files[..n];
      RunReports(applied, db, front);
      var r, s := ApplyFrom(applied, db, front), ApplyFrom(applied, db, files);
      forall v | v in s.db.rows && v !in db.rows
        ensures exists i :: 0 <= i < |files| && files[i].version == Some(v) && files[i].name == s.db.rows[v]
      {
        if v in r.db.rows {
          var i :| 0 <= i < n && front[i].version == Some(v) && front[i].name == r.db.rows[v];
          assert files[i] == front[i];
        } else {
          assert files[n].version == Some(v) && files[n].name == s.db.rows[v];
        }
      }
    }
  }

  /** Over the directory's entries: each row a run adds names a migration there by its version, and each
      script it runs is that of a migration above the starting version. */
  lemma {:induction false} RunOfEntries(db: Db, entries: seq<Entry>, v: nat)
    requires !Apply(db, FilesOf(entries)).failed
    requires v in Apply(db, FilesOf(entries)).db.rows && v !in db.rows
    ensures exists e :: e in entries && VersionOf(e.name) == Some(v) && Apply(db, FilesOf(entries)).db.rows[v] == e.name
  {
    var files := FilesOf(entries);
    RunReports(CurrentVersion(db), db, files);
    var i :| 0 <= i < |files| && files[i].version == Some(v) && files[i].name == Apply(db, files).db.rows[v];
    assert entries[i] in entries && files[i] == FileOf(entries[i]);
  }

  lemma {:induction false} ScriptOfEntry(db: Db, entries: seq<Entry>, k: nat) returns (e: Entry)
    requires !Apply(db, FilesOf(entries)).failed && |db.ran| <= k < |Apply(db, FilesOf(entries)).db.ran|
    ensures var f := Apply(db, FilesOf(entries)).db.ran[k];
            && e in entries && f.name == e.name && f.sql == e.sql && f.repeatable == e.repeatable
            && VersionOf(e.name).Some? && VersionOf(e.name).value > MaxOf(db.rows.Keys)
  {
    var files := FilesOf(entries);
    RunRecords(CurrentVersion(db), db, files);
    ScriptsArePending(CurrentVersion(db), files);
    var f := Apply(db, files).db.ran[k];
    assert f == Scripts(CurrentVersion(db), files)[k - |db.ran|];
    var i :| 0 <= i < |files| && files[i] == f;
    e := entries[i];
  }

  lemma {:induction false} NothingPending(applied: nat, db: Db, files: seq<File>)
    requires forall i :: 0 <= i < |files| ==> !Pending(applied, files, i)
    ensures ApplyFrom(applied, db, files) == Run(db, [], false)
    decreases |files|
  {
    if files != [] {
      var front := files[..|files| - 1];
      assert forall i :: 0 <= i < |front| ==> Pending(applied, front, i) == Pending(applied, files, i);
      NothingPending(applied, db, front);
      assert !Pending(applied, files, |files| - 1);
    }
  }

  /** Applying the same directory again does nothing, whatever is in it. */
  lemma {:induction false} RerunAppliesNothing(db: Db, files: seq<File>)
    requires !Apply(db, files).failed
    ensures Apply(Apply(db, files).db, files) == Run(Apply(db, files).db, [], false)
  {
    var applied, next := CurrentVersion(db), Apply(db, files).db;
    RunRecords(applied, db, files);
    forall i | 0 <= i < |files| ensures !Pending(CurrentVersion(next), files, i) {
      if Pending(applied, files, i) {
        assert files[i].version.value in next.rows;
      }
      if applied > 0 { assert applied in next.rows; }
    }
    NothingPending(CurrentVersion(next), next, files);
  }

  // ---------------------------------------------------------------- staged runs

  function AtMost(n: nat, bound: nat): (r: nat)
    ensures r <= bound
  {
    if n < bound then n else bound
  }

  /** Runs over growing directories, or cut off between files: run `k` goes through the first
      `cuts[k]` files. Failed if any run failed. */
  function Staged(files: seq<File>, cuts: seq<nat>): Run
    decreases |cuts|
  {
    if cuts == [] then Run(NEW, [], false) else
      var before := Staged(files, cuts[..|cuts| - 1]);
      var r := Apply(before.db, files[..AtMost(cuts[|cuts| - 1], |files|)]);
      Run(r.db, before.newly + r.newly, before.failed || r.failed)
  }

  /** The last run saw every file. */
  predicate Complete(cuts: seq<nat>, n: nat) {
    cuts != [] && cuts[|cuts| - 1] >= n
  }

  /** The migrations' numbers start above zero and rise with their names. */
  ghost predicate Ascending(files: seq<File>) {
    && (forall i :: 0 <= i < |files| && files[i].version.Some? ==> files[i].version.value > 0)
    && (forall i, j :: 0 <= i < j < |files| && files[i].version.Some? && files[j].version.Some?
          ==> files[i].version.value < files[j].version.value)
  }

  /** No run failed, every migration is recorded, and each script ran once, in name order. */
  ghost predicate EachOnce(files: seq<File>, r: Run) {
    && !r.failed
    && r.db.ran == Scripts(0, files)
    && (forall i :: 0 <= i < |files| && files[i].version.Some? ==> files[i].version.value in r.db.rows)
  }

  lemma {:induction false} LaterIsNew(applied: nat, files: seq<File>, k: nat, i: nat)
    requires Ascending(files) && k <= i < |files| && files[i].version.Some?
    ensures files[i] !in Scripts(applied, files[..k])
    decreases k
  {
    if k > 0 {
      assert files[..k][..k - 1] == files[..k - 1];
      LaterIsNew(applied, files, k - 1, i);
    }
  }

  /** No pending script that has run already raises. */
  ghost predicate MayRun(applied: nat, db: Db, files: seq<File>) {
    forall i :: 0 <= i < |files| && Pending(applied, files, i) && files[i] in db.ran ==> files[i].repeatable
  }

  lemma {:induction false} LastMayRun(applied: nat, db: Db, files: seq<File>)
    requires Ascending(files) && MayRun(applied, db, files) && files != []
    requires Pending(applied, files, |files| - 1) && !ApplyFrom(applied, db, files[..|files| - 1]).failed
    requires files[|files| - 1] in ApplyFrom(applied, db, files[..|files| - 1]).db.ran
    ensures files[|files| - 1].repeatable
  {
    RunRecords(applied, db, files[..|files| - 1]);
    LaterIsNew(applied, files, |files| - 1, |files| - 1);
  }

  lemma {:induction false} AscendingRunSucceeds(applied: nat, db: Db, files: seq<File>)
    requires Ascending(files) && MayRun(applied, db, files) && forall v :: v in db.rows ==> v <= applied
    ensures !ApplyFrom(applied, db, files).failed
    decreases |files|
  {
    if files != [] {
      var n := |files| - 1;
      assert forall i :: 0 <= i < n ==> files[..n][i] == files[i] && Pending(applied, files[..n], i)
                                                                     == Pending(applied, files, i);
      AscendingRunSucceeds(applied, db, files[..n]);
      RunRecords(applied, db, files[..n]);
      if Pending(applied, files, n) && files[n] in ApplyFrom(applied, db, files[..n]).db.ran {
        LastMayRun(applied, db, files);
      }
    }
  }

  /** What a prefix has run is not pending any more. */
  lemma {:induction false} PrefixMayGoOn(files: seq<File>, k: nat, n: nat)
    requires Ascending(files) && k <= |files| && n <= |files|
    ensures MayRun(CurrentVersion(Prefix(files, k)), Prefix(files, k), files[..n])
  {
    var db := Prefix(files, k);
    PrefixRecords(files, k);
    RunRecords(0, NEW, files[..k]);
    forall i | 0 <= i < n && Pending(CurrentVersion(db), files[..n], i) ensures files[..n][i] !in db.ran {
      assert Pending(CurrentVersion(db), files, i);
      LaterIsNew(0, files, k, i);
    }
  }

  /** The state after the first `k` files have been applied by one run. */
  function Prefix(files: seq<File>, k: nat): Db
    requires k <= |files|
  {
    ApplyFrom(0, NEW, files[..k]).db
  }

  lemma {:induction false} FilesDone(files: seq<File>, k: nat, n: nat)
    requires Ascending(files) && k <= n <= |files|
    ensures ApplyFrom(CurrentVersion(Prefix(files, k)), Prefix(files, k), files[..n]).db == Prefix(files, n)
    decreases n
  {
    var db := Prefix(files, k);
    var applied := CurrentVersion(db);
    PrefixRecords(files, k);
    if n == k {
      assert forall i :: 0 <= i < n ==> files[..n][i] == files[i];
      NothingPending(applied, db, files[..n]);
    } else {
      FilesDone(files, k, n - 1);
      assert files[..n][..n - 1] == files[..n - 1];
      SameStep(files, k, n);
    }
  }

  lemma {:induction false} PrefixRecords(files: seq<File>, k: nat)
    requires Ascending(files) && k <= |files|
    ensures !ApplyFrom(0, NEW, files[..k]).failed
    ensures forall v :: v in Prefix(files, k).rows <==> exists i :: 0 <= i < k && files[i].version == Some(v)
    ensures forall i :: 0 <= i < k && files[i].version.Some? ==>
              files[i].version.value <= CurrentVersion(Prefix(files, k))
    ensures forall i :: k <= i < |files| && files[i].version.Some? ==>
              files[i].version.value > CurrentVersion(Prefix(files, k))
  {
    var front := files[..k];
    assert forall i :: 0 <= i < k ==> front[i] == files[i];
    assert MayRun(0, NEW, front);
    AscendingRunSucceeds(0, NEW, front);
    RunRecords(0, NEW, front);
    var rows := Prefix(files, k).rows;
    forall v ensures v in rows <==> exists i :: 0 <= i < k && files[i].version == Some(v) {
      if i :| 0 <= i < k && files[i].version == Some(v) {
        assert Pending(0, front, i) && front[i].version == Some(v);
      }
    }
    forall i | 0 <= i < k && files[i].version.Some? ensures files[i].version.value in rows {}
    var top := CurrentVersion(Prefix(files, k));
    if rows.Keys != {} {
      assert top in rows;
      var h :| 0 <= h < k && files[h].version == Some(top);
    }
  }

  lemma {:induction false} SameFile(applied: nat, r: Run, r': Run, f: File)
    requires r.db == r'.db && (f.version.Some? ==> f.version.value > applied)
    ensures ApplyOne(applied, r, f).db == ApplyOne(0, r', f).db
  {
  }

  lemma {:induction false} PrefixOf(files: seq<File>, n: nat)
    requires Ascending(files) && n <= |files|
    ensures Ascending(files[..n])
  {
    assert forall i :: 0 <= i < n ==> files[..n][i] == files[i];
  }

  lemma {:induction false} PrefixGoesOn(files: seq<File>, k: nat, n: nat)
    requires Ascending(files) && k <= |files| && n <= |files|
    ensures !ApplyFrom(CurrentVersion(Prefix(files, k)), Prefix(files, k), files[..n]).failed
  {
    PrefixOf(files, n);
    PrefixMayGoOn(files, k, n);
    AscendingRunSucceeds(CurrentVersion(Prefix(files, k)), Prefix(files, k), files[..n]);
  }

  lemma {:induction false} SameStep(files: seq<File>, k: nat, n: nat)
    requires Ascending(files) && k < n <= |files|
    requires ApplyFrom(CurrentVersion(Prefix(files, k)), Prefix(files, k), files[..n - 1]).db == Prefix(files, n - 1)
    ensures ApplyFrom(CurrentVersion(Prefix(files, k)), Prefix(files, k), files[..n]).db == Prefix(files, n)
  {
    var db := Prefix(files, k);
    var applied := CurrentVersion(db);
    PrefixRecords(files, k);
    PrefixRecords(files, n - 1);
    PrefixGoesOn(files, k, n - 1);
    RunStep(applied, db, files, n - 1);
    RunStep(0, NEW, files, n - 1);
    SameFile(applied, ApplyFrom(applied, db, files[..n - 1]), ApplyFrom(0, NEW, files[..n - 1]), files[n - 1]);
  }

  /** With ascending numbers, any staging has applied some prefix of the files, as one run would. */
  lemma {:induction false} StagedIsPrefix(files: seq<File>, cuts: seq<nat>) returns (k: nat)
    requires Ascending(files)
    ensures k <= |files| && Staged(files, cuts).db == Prefix(files, k) && !Staged(files, cuts).failed
    ensures Complete(cuts, |files|) ==> k == |files|
    decreases |cuts|
  {
    if cuts == [] {
      k := 0;
    } else {
      var h := StagedIsPrefix(files, cuts[..|cuts| - 1]);
      var n := AtMost(cuts[|cuts| - 1], |files|);
      var db := Prefix(files, h);
      PrefixRecords(files, h);
      PrefixGoesOn(files, h, n);
      if n >= h {
        FilesDone(files, h, n);
        k := n;
      } else {
        NothingPending(CurrentVersion(db), db, files[..n]);
        k := h;
      }
    }
  }

  lemma {:induction false} AscendingIsEachOnce(files: seq<File>, cuts: seq<nat>)
    requires Ascending(files) && Complete(cuts, |files|)
    ensures EachOnce(files, Staged(files, cuts))
  {
    var k := StagedIsPrefix(files, cuts);
    PrefixRecords(files, k);
    assert files[..k] == files;
    RunRecords(0, NEW, files);
  }

  lemma {:induction false} RecordedBy(files: seq<File>, i: nat, j: nat)
    requires i < j <= |files| && Pending(0, files, i) && !ApplyFrom(0, NEW, files[..j]).failed
    ensures files[i].version.value in ApplyFrom(0, NEW, files[..j]).db.rows
  {
    RunRecords(0, NEW, files[..j]);
    assert Pending(0, files[..j], i) && files[..j][i] == files[i];
  }

  /** Two files of one number make an uninterrupted run fail. */
  lemma {:induction false} SameNumberFails(files: seq<File>, i: nat, j: nat)
    requires i < j < |files| && Pending(0, files, i) && files[j].version == files[i].version
    ensures ApplyFrom(0, NEW, files).failed
  {
    assert files[..j + 1][..j] == files[..j];
    if !ApplyFrom(0, NEW, files[..j]).failed {
      RecordedBy(files, i, j);
    }
    assert ApplyFrom(0, NEW, files[..j + 1]).failed;
    FailureStays(0, NEW, files, j + 1);
  }

  lemma {:induction false} NextRun(files: seq<File>, cuts: seq<nat>, n: nat)
    requires n <= |files|
    ensures var before, r := Staged(files, cuts), Apply(Staged(files, cuts).db, files[..n]);
            Staged(files, cuts + [n]) == Run(r.db, before.newly + r.newly, before.failed || r.failed)
  {
    assert (cuts + [n])[..|cuts|] == cuts;
  }

  lemma {:induction false} OneRun(files: seq<File>, n: nat)
    requires n <= |files|
    ensures Staged(files, [n]).db == ApplyFrom(0, NEW, files[..n]).db
    ensures Staged(files, [n]).failed == ApplyFrom(0, NEW, files[..n]).failed
  {
    NextRun(files, [], n);
    assert [] + [n] == [n];
    assert CurrentVersion(NEW) == 0;
  }

  lemma {:induction false} TwoRuns(files: seq<File>, n: nat)
    requires n <= |files|
    ensures var r := Apply(ApplyFrom(0, NEW, files[..n]).db, files);
            && Staged(files, [n, |files|]).db == r.db
            && Staged(files, [n, |files|]).failed == (ApplyFrom(0, NEW, files[..n]).failed || r.failed)
  {
    NextRun(files, [n], |files|);
    assert [n] + [|files|] == [n, |files|];
    assert files[..|files|] == files;
    OneRun(files, n);
  }

  /** A version that no file up to `i` has, below that of file `i`, is not recorded by a run over
      those files, and is not above what it records. */
  lemma {:induction false} NotRecordedBy(files: seq<File>, i: nat, v: nat)
    requires i < |files| && Pending(0, files, i) && v <= files[i].version.value
    requires forall h :: 0 <= h <= i ==> files[h].version != Some(v)
    requires !ApplyFrom(0, NEW, files[..i + 1]).failed
    ensures var db := ApplyFrom(0, NEW, files[..i + 1]).db; v !in db.rows && v <= CurrentVersion(db)
  {
    var front := files[..i + 1];
    RunRecords(0, NEW, front);
    assert forall h :: 0 <= h <= i ==> front[h] == files[h];
    assert Pending(0, front, i) && front[i].version == Some(files[i].version.value);
    assert files[i].version.value in ApplyFrom(0, NEW, front).db.rows;
  }

  /** A file whose number is below that of an earlier one is skipped for good when a run stops between. */
  lemma {:induction false} OvertakenIsSkipped(files: seq<File>, i: nat, j: nat)
    requires i < j < |files| && Pending(0, files, i) && files[j].version.Some?
    requires files[j].version.value <= files[i].version.value
    requires forall h :: 0 <= h <= i ==> files[h].version != files[j].version
    requires !Staged(files, [i + 1, |files|]).failed
    ensures files[j].version.value !in Staged(files, [i + 1, |files|]).db.rows
  {
    TwoRuns(files, i + 1);
    NotRecordedBy(files, i, files[j].version.value);
    var db := ApplyFrom(0, NEW, files[..i + 1]).db;
    RunRecords(CurrentVersion(db), db, files);
  }

  lemma {:induction false} ZeroIsSkipped(files: seq<File>, i: nat)
    requires i < |files| && files[i].version == Some(0)
    ensures !EachOnce(files, Staged(files, [|files|]))
  {
    assert files[..|files|] == files;
    OneRun(files, |files|);
    if !ApplyFrom(0, NEW, files).failed {
      RunRecords(0, NEW, files);
      assert 0 !in ApplyFrom(0, NEW, files).db.rows;
    }
  }

  lemma {:induction false} OvertakenGoesWrong(files: seq<File>, i: nat, j: nat)
    requires i < j < |files| && Pending(0, files, i) && Pending(0, files, j)
    requires files[j].version.value < files[i].version.value
    requires forall h, k :: 0 <= h < k < |files| && Pending(0, files, h) ==> files[k].version != files[h].version
    ensures !EachOnce(files, Staged(files, [i + 1, |files|]))
  {
    forall h | 0 <= h <= i ensures files[h].version != files[j].version {
      assert files[h].version == files[j].version ==> Pending(0, files, h);
    }
    if !Staged(files, [i + 1, |files|]).failed { OvertakenIsSkipped(files, i, j); }
  }

  lemma {:induction false} NotAscendingGoesWrong(files: seq<File>) returns (cuts: seq<nat>)
    requires !Ascending(files)
    ensures Complete(cuts, |files|) && !EachOnce(files, Staged(files, cuts))
  {
    if i :| 0 <= i < |files| && files[i].version == Some(0) {
      cuts := [|files|];
      ZeroIsSkipped(files, i);
    } else if i, j :| 0 <= i < j < |files| && Pending(0, files, i) && files[j].version == files[i].version {
      cuts := [|files|];
      assert files[..|files|] == files;
      OneRun(files, |files|);
      SameNumberFails(files, i, j);
    } else {
      var i, j :| 0 <= i < j < |files| && files[i].version.Some? && files[j].version.Some?
        && files[i].version.value >= files[j].version.value;
      cuts := [i + 1, |files|];
      assert Pending(0, files, i) && Pending(0, files, j);
      OvertakenGoesWrong(files, i, j);
    }
  }

  /** Every staging ends like one run over the final directory, with each script run once and in
      order, if and only if the numbers start above zero and rise with the names. */
  lemma {:induction false} StagedIsOneRunIff(files: seq<File>)
    ensures (forall cuts :: Complete(cuts, |files|) ==> EachOnce(files, Staged(files, cuts))) <==> Ascending(files)
  {
    if Ascending(files) {
      forall cuts | Complete(cuts, |files|) ensures EachOnce(files, Staged(files, cuts)) {
        AscendingIsEachOnce(files, cuts);
      }
    } else {
      var cuts := NotAscendingGoesWrong(files);
    }
  }

  // ---------------------------------------------------------------- cut off between script and row

  /** `executescript` takes effect before the version row is inserted, so a run can stop in between:
      the first `n` files are done, and the script of file `n` has run without being recorded. */
  function CutBeforeRow(db: Db, files: seq<File>, n: nat): Db
    requires n < |files|
  {
    var r := Apply(db, files[..n]);
    if Pending(CurrentVersion(db), files, n) then r.db.(ran := r.db.ran + [files[n]]) else r.db
  }

  lemma {:induction false} CutKeepsRows(files: seq<File>, n: nat)
    requires Ascending(files) && n < |files| && files[n].version.Some?
    ensures CutBeforeRow(NEW, files, n) == Db(Prefix(files, n).rows, Scripts(0, files[..n]) + [files[n]])
  {
    PrefixRecords(files, n);
    RunRecords(0, NEW, files[..n]);
    assert CurrentVersion(NEW) == 0;
  }

  /** The next run skips the files done and comes to file `n` again. */
  lemma {:induction false} ComesToItAgain(files: seq<File>, n: nat, db: Db)
    requires Ascending(files) && n < |files| && files[n].version.Some? && db.rows == Prefix(files, n).rows
    ensures Pending(CurrentVersion(db), files, n)
    ensures ApplyFrom(CurrentVersion(db), db, files[..n]) == Run(db, [], false)
  {
    PrefixRecords(files, n);
    assert forall i :: 0 <= i < n ==> files[..n][i] == files[i];
    NothingPending(CurrentVersion(db), db, files[..n]);
  }

  lemma {:induction false} RaisesAgain(files: seq<File>, n: nat, db: Db)
    requires Ascending(files) && n < |files| && files[n].version.Some? && db.rows == Prefix(files, n).rows
    requires files[n] in db.ran && !files[n].repeatable
    ensures Apply(db, files) == Run(db, [], true)
  {
    ComesToItAgain(files, n, db);
    RunStep(CurrentVersion(db), db, files, n);
  }

  lemma {:induction false} OnlyItRanEarly(files: seq<File>, n: nat, db: Db, i: nat)
    requires Ascending(files) && n < |files| && files[n].version.Some? && i < |files|
    requires db == Db(Prefix(files, n).rows, Scripts(0, files[..n]) + [files[n]])
    requires Pending(CurrentVersion(db), files, i) && files[i] in db.ran
    ensures files[i] == files[n]
  {
    PrefixRecords(files, n);
    LaterIsNew(0, files, n, i);
  }

  lemma {:induction false} GoesOn(files: seq<File>, n: nat, db: Db)
    requires Ascending(files) && n < |files| && files[n].version.Some? && files[n].repeatable
    requires db == Db(Prefix(files, n).rows, Scripts(0, files[..n]) + [files[n]])
    ensures !Apply(db, files).failed && Apply(db, files).db.ran == db.ran + Scripts(CurrentVersion(db), files)
  {
    forall i | 0 <= i < |files| && Pending(CurrentVersion(db), files, i) && files[i] in db.ran
      ensures files[i].repeatable
    {
      OnlyItRanEarly(files, n, db, i);
    }
    AscendingRunSucceeds(CurrentVersion(db), db, files);
    RunRecords(CurrentVersion(db), db, files);
  }

  lemma {:induction false} NextScript(files: seq<File>, n: nat, db: Db)
    requires Ascending(files) && n < |files| && files[n].version.Some? && db.rows == Prefix(files, n).rows
    ensures Scripts(CurrentVersion(db), files[..n + 1]) == [files[n]]
  {
    PrefixRecords(files, n);
    assert files[..n + 1][..n] == files[..n];
    NoScripts(CurrentVersion(db), files[..n]);
  }

  /** Then the next run fails if and only if that script is not repeatable, and it leaves the database as
      it was, so that every later run fails too; otherwise it runs the script a second time, first of all,
      and goes on. */
  lemma {:induction false} ScriptRunsAgainIff(files: seq<File>, n: nat)
    requires Ascending(files) && n < |files| && files[n].version.Some?
    ensures var db := CutBeforeRow(NEW, files, n);
            var r := Apply(db, files);
            && (r.failed <==> !files[n].repeatable)
            && (r.failed ==> r == Run(db, [], true))
            && (!r.failed ==> r.db.ran == db.ran + Scripts(CurrentVersion(db), files))
            && Scripts(CurrentVersion(db), files[..n + 1]) == [files[n]] && files[n] in db.ran
  {
    var db := CutBeforeRow(NEW, files, n);
    CutKeepsRows(files, n);
    NextScript(files, n, db);
    if files[n].repeatable {
      GoesOn(files, n, db);
    } else {
      RaisesAgain(files, n, db);
    }
  }

  lemma {:induction false} NoScripts(applied: nat, files: seq<File>)
    requires forall i :: 0 <= i < |files| ==> !Pending(applied, files, i)
    ensures Scripts(applied, files) == []
    decreases |files|
  {
    if files != [] {
      var front := files[..|files| - 1];
      assert forall i :: 0 <= i < |front| ==> Pending(applied, front, i) == Pending(applied, files, i);
      NoScripts(applied, front);
    }
  }
}
