/** A log read in windows into a map that keeps the first value stored under each key. Both sync
    loops have this shape: the log is the remote mailbox, the map is what has been archived. */
module ResumableLog {

  datatype Entry<V> = Entry(key: string, value: V)

  /** Insert if absent: a stored key is skipped. */
  function Put<V>(m: map<string, V>, e: Entry<V>): map<string, V> {
    if e.key in m then m else m[e.key := e.value]
  }

  function PutAll<V>(m: map<string, V>, es: seq<Entry<V>>): map<string, V>
    decreases |es|
  {
    if es == [] then m else Put(PutAll(m, es[..|es| - 1]), es[|es| - 1])
  }

  /** What an uninterrupted pass over the whole log archives. */
  function Keep<V>(log: seq<Entry<V>>): map<string, V> {
    PutAll(map[], log)
  }

  lemma {:induction false} PutAllKeys<V>(m: map<string, V>, es: seq<Entry<V>>)
    ensures var n := PutAll(m, es);
            && (forall k :: k in n <==> k in m || exists i :: 0 <= i < |es| && es[i].key == k)
            && (forall k :: k in m ==> n[k] == m[k])
            && (forall k :: k in n && k !in m ==> exists i :: 0 <= i < |es| && es[i] == Entry(k, n[k]))
    decreases |es|
  {
    if es != [] {
      var front, last := es[..|es| - 1], es[|es| - 1];
      PutAllKeys(m, front);
      assert es == front + [last];
      var n := PutAll(m, es);
      forall k | k in n && k !in m ensures exists i :: 0 <= i < |es| && es[i] == Entry(k, n[k]) {
        if k in PutAll(m, front) {
          var i :| 0 <= i < |front| && front[i] == Entry(k, n[k]);
          assert es[i] == Entry(k, n[k]);
        } else {
          assert es[|es| - 1] == Entry(k, n[k]);
        }
      }
      forall k ensures k in n <==> k in m || exists i :: 0 <= i < |es| && es[i].key == k {
        if i :| 0 <= i < |front| && front[i].key == k { assert es[i].key == k; }
        if k == last.key { assert es[|es| - 1].key == k; }
      }
    }
  }

  lemma {:induction false} FrontOfSlice<T>(s: seq<T>, j: nat, n: nat)
    requires j < n <= |s|
    ensures s[j..n][..|s[j..n]| - 1] == s[j..n - 1]
  {
    var a, b := s[j..n][..|s[j..n]| - 1], s[j..n - 1];
    assert |a| == |b|;
    assert forall i :: 0 <= i < |b| ==> a[i] == s[j + i] && b[i] == s[j + i];
  }

  /** Reading a window that starts no later than where the archived prefix ends extends the prefix:
      no matter how much is read again, and where the reading stops. */
  lemma {:induction false} ReadWindow<V>(log: seq<Entry<V>>, k: nat, j: nat, n: nat)
    requires j <= k <= |log| && j <= n <= |log|
    ensures PutAll(Keep(log[..k]), log[j..n]) == Keep(log[..if k < n then n else k])
    decreases n
  {
    if j < n {
      ReadWindow(log, k, j, n - 1);
      FrontOfSlice(log, j, n);
      var e := log[n - 1];
      if n <= k {
        PutAllKeys(map[], log[..k]);
        assert log[..k][n - 1].key == e.key;
      } else {
        assert log[..n][..n - 1] == log[..n - 1];
      }
    }
  }

  /** Entries whose keys are archived already add nothing. */
  lemma {:induction false} SkipKnown<V>(log: seq<Entry<V>>, k: nat, j: nat)
    requires k <= j <= |log|
    requires forall i :: k <= i < j ==> log[i].key in Keep(log[..k])
    ensures Keep(log[..j]) == Keep(log[..k])
    decreases j
  {
    if k < j {
      SkipKnown(log, k, j - 1);
      assert log[..j][..j - 1] == log[..j - 1];
      assert log[..j][j - 1] == log[j - 1];
    }
  }

  lemma {:induction false} KeepSource<V>(log: seq<Entry<V>>, key: string) returns (i: nat)
    requires key in Keep(log)
    ensures i < |log| && log[i] == Entry(key, Keep(log)[key])
  {
    PutAllKeys(map[], log);
    i :| 0 <= i < |log| && log[i] == Entry(key, Keep(log)[key]);
  }

  lemma {:induction false} NewKey<V>(m: map<string, V>, log: seq<Entry<V>>, key: string)
    requires key !in m && forall h :: 0 <= h < |log| ==> log[h].key != key
    ensures key !in PutAll(m, log)
  {
    PutAllKeys(m, log);
  }

  /** Each key holds the value of its first entry. */
  lemma {:induction false} FirstWins<V>(log: seq<Entry<V>>, i: nat)
    requires i < |log| && forall h :: 0 <= h < i ==> log[h].key != log[i].key
    ensures log[i].key in Keep(log) && Keep(log)[log[i].key] == log[i].value
    decreases |log|
  {
    var front := log[..|log| - 1];
    if i < |front| {
      FirstWins(front, i);
    } else {
      NewKey(map[], front, log[i].key);
    }
  }

  /** A longer prefix archives no less. */
  lemma {:induction false} KeepGrows<V>(log: seq<Entry<V>>, k: nat, n: nat)
    requires k <= n <= |log|
    ensures forall e :: e in Keep(log[..k]) ==> e in Keep(log[..n]) && Keep(log[..n])[e] == Keep(log[..k])[e]
  {
    ReadWindow(log, k, k, n);
    PutAllKeys(Keep(log[..k]), log[k..n]);
  }

  // ---------------------------------------------------------------- passes over a growing log

  /** One pass of a sync loop: it sees the first `visible` entries of the log and is stopped after `cut`
      of those it fetched (never, if that is at least as many). */
  datatype Pass = Pass(visible: nat, cut: nat)

  function AtMost(n: nat, limit: nat): (r: nat)
    ensures r <= n && r <= limit && (r == n || r == limit)
  {
    if n <= limit then n else limit
  }

  /** The window of a log of `n` entries a pass gets through, when `start` says where in the visible part
      a pass begins from state `s`. */
  function Window<S>(start: (S, nat) -> nat, s: S, n: nat, p: Pass): (w: (nat, nat))
    ensures w.0 <= w.1 <= n
  {
    var seen := AtMost(p.visible, n);
    var from := AtMost(start(s, seen), seen);
    (from, from + AtMost(p.cut, seen - from))
  }

  lemma {:induction false} FullWindow<S>(start: (S, nat) -> nat, s: S, n: nat, stop: nat, from: nat)
    requires from == start(s, n) && from <= n
    ensures Window(start, s, n, Pass(n, stop)) == (from, from + AtMost(stop, n - from))
  {
    assert AtMost(n, n) == n && AtMost(from, n) == from;
  }

  /** The last pass saw the whole log and was not cut. */
  predicate EndsComplete(passes: seq<Pass>, n: nat) {
    passes != [] && passes[|passes| - 1].visible >= n && passes[|passes| - 1].cut >= n
  }

  ghost function ReadPass<V>(start: (map<string, V>, nat) -> nat, a: map<string, V>, log: seq<Entry<V>>, p: Pass)
      : map<string, V>
  {
    var w := Window(start, a, |log|, p);
    PutAll(a, log[w.0..w.1])
  }

  ghost function ReadPasses<V>(start: (map<string, V>, nat) -> nat, a: map<string, V>, log: seq<Entry<V>>,
                               passes: seq<Pass>): map<string, V>
    decreases |passes|
  {
    if passes == [] then a else
      ReadPass(start, ReadPasses(start, a, log, passes[..|passes| - 1]), log, passes[|passes| - 1])
  }

  lemma {:induction false} OneMorePass<V>(start: (map<string, V>, nat) -> nat, a: map<string, V>,
                                          log: seq<Entry<V>>, passes: seq<Pass>, next: Pass)
    ensures ReadPasses(start, a, log, passes + [next])
         == ReadPass(start, ReadPasses(start, a, log, passes), log, next)
  {
    assert (passes + [next])[..|passes|] == passes;
  }

  /** With `k` entries archived and so many visible, a pass begins within the archived prefix or leaves
      out only what is archived under its key already. */
  ghost predicate Harmless<V>(start: (map<string, V>, nat) -> nat, log: seq<Entry<V>>) {
    forall k: nat, seen: nat :: k <= |log| && seen <= |log| ==> SkipsNothing(start, log, k, seen)
  }

  ghost predicate SkipsNothing<V>(start: (map<string, V>, nat) -> nat, log: seq<Entry<V>>, k: nat, seen: nat)
    requires k <= |log| && seen <= |log|
  {
    var from := AtMost(start(Keep(log[..k]), seen), seen);
    from > k ==> Keep(log[..from]) == Keep(log[..k])
  }

  /** Then every pass, whatever it sees and wherever it stops, leaves a prefix at least as long. */
  lemma {:induction false} PassExtends<V>(start: (map<string, V>, nat) -> nat, log: seq<Entry<V>>, k: nat, p: Pass)
      returns (n: nat)
    requires Harmless(start, log) && k <= |log|
    ensures k <= n <= |log| && ReadPass(start, Keep(log[..k]), log, p) == Keep(log[..n])
    ensures p.visible >= |log| && p.cut >= |log| ==> n == |log|
  {
    var w := Window(start, Keep(log[..k]), |log|, p);
    assert SkipsNothing(start, log, k, AtMost(p.visible, |log|));
    var from := if w.0 > k then w.0 else k;
    ReadWindow(log, from, w.0, w.1);
    n := if from < w.1 then w.1 else from;
  }

  /** Any passes leave the archive of a prefix, and a complete last one that of the whole log. */
  lemma {:induction false} PassesKeepPrefix<V>(start: (map<string, V>, nat) -> nat, log: seq<Entry<V>>,
                                               passes: seq<Pass>) returns (k: nat)
    requires Harmless(start, log)
    ensures k <= |log| && ReadPasses(start, map[], log, passes) == Keep(log[..k])
    ensures EndsComplete(passes, |log|) ==> k == |log|
    decreases |passes|
  {
    if passes == [] {
      k := 0;
    } else {
      var h := PassesKeepPrefix(start, log, passes[..|passes| - 1]);
      k := PassExtends(start, log, h, passes[|passes| - 1]);
    }
  }

  // ---------------------------------------------------------------- any state, any step

  /** The state after taking the messages one by one. */
  ghost function Fold<S, M>(step: (S, M) -> S, s: S, ms: seq<M>): S
    decreases |ms|
  {
    if ms == [] then s else step(Fold(step, s, ms[..|ms| - 1]), ms[|ms| - 1])
  }

  /** Messages that change nothing may be passed over. */
  lemma {:induction false} FoldSkips<S, M>(step: (S, M) -> S, s: S, log: seq<M>, k: nat, n: nat)
    requires k <= n <= |log|
    requires forall i :: k <= i < n ==> step(Fold(step, s, log[..k]), log[i]) == Fold(step, s, log[..k])
    ensures Fold(step, s, log[..n]) == Fold(step, s, log[..k])
    decreases n
  {
    if k < n {
      FoldSkips(step, s, log, k, n - 1);
      assert log[..n][..n - 1] == log[..n - 1];
    }
  }

  /** The state after taking messages `j` up to `n` of the log. */
  ghost function FoldTo<S, M>(step: (S, M) -> S, s: S, log: seq<M>, j: nat, n: nat): S
    requires n <= |log|
  {
    if n <= j then s else step(FoldTo(step, s, log, j, n - 1), log[n - 1])
  }

  /** From a state that old messages leave alone and that the next one makes like the pass, taking more of
      the log goes on like the pass. */
  lemma {:induction false} FoldPast<S, M>(step: (S, M) -> S, alike: (S, S) -> bool, s: S, log: seq<M>, k: nat, p: S,
                                          j: nat, n: nat)
    requires j <= k <= |log| && j <= n <= |log|
    requires forall i :: j <= i < k ==> step(p, log[i]) == p
    requires k < |log| ==> alike(step(p, log[k]), Fold(step, s, log[..k + 1]))
    requires forall a, b, i :: 0 <= i < |log| && alike(a, b) ==> alike(step(a, log[i]), step(b, log[i]))
    ensures n <= k ==> FoldTo(step, p, log, j, n) == p
    ensures n > k ==> alike(FoldTo(step, p, log, j, n), Fold(step, s, log[..n]))
    decreases n
  {
    if j < n {
      FoldPast(step, alike, s, log, k, p, j, n - 1);
      assert log[..n][..n - 1] == log[..n - 1];
    }
  }

  lemma {:induction false} FoldToFolds<S, M>(step: (S, M) -> S, s: S, log: seq<M>, j: nat, n: nat)
    requires j <= n <= |log|
    ensures FoldTo(step, s, log, j, n) == Fold(step, s, log[j..n])
  {
    if j < n {
      FoldToFolds(step, s, log, j, n - 1);
      FrontOfSlice(log, j, n);
    }
  }

  // ---------------------------------------------------------------- a loop as its steps

  /** When taking a message commits the steps `commits` gives, the steps of taking `j` up to `n`. */
  ghost function AllSteps<S, M, T>(step: (S, M) -> S, commits: (S, M) -> seq<T>, s: S, log: seq<M>, j: nat, n: nat)
      : seq<T>
    requires n <= |log|
  {
    if n <= j then [] else
      AllSteps(step, commits, s, log, j, n - 1) + commits(FoldTo(step, s, log, j, n - 1), log[n - 1])
  }

  /** Those of taking fewer come first. */
  lemma {:induction false} StepsPrefix<S, M, T>(step: (S, M) -> S, commits: (S, M) -> seq<T>, s: S, log: seq<M>, j: nat,
                                                m: nat, n: nat)
    requires m <= n <= |log|
    ensures var steps := AllSteps(step, commits, s, log, j, n);
            && |AllSteps(step, commits, s, log, j, m)| <= |steps|
            && steps[..|AllSteps(step, commits, s, log, j, m)|] == AllSteps(step, commits, s, log, j, m)
    decreases n
  {
    if m < n { StepsPrefix(step, commits, s, log, j, m, n - 1); }
  }

  lemma {:induction false} PrefixOfSum<T>(a: seq<T>, b: seq<T>, c: nat)
    requires c <= |a| + |b|
    ensures c <= |a| ==> (a + b)[..c] == a[..c]
    ensures c >= |a| ==> (a + b)[..c] == a + b[..c - |a|]
  {
  }

  /** Cut off after any number of steps the loop is within those of one message. */
  lemma {:induction false} CutSplits<S, M, T>(step: (S, M) -> S, commits: (S, M) -> seq<T>, s: S, log: seq<M>, j: nat,
                                              n: nat, c: nat) returns (i: nat, r: nat)
    requires j < n <= |log| && c <= |AllSteps(step, commits, s, log, j, n)|
    ensures j <= i < n && r <= |commits(FoldTo(step, s, log, j, i), log[i])|
    ensures AllSteps(step, commits, s, log, j, n)[..c]
         == AllSteps(step, commits, s, log, j, i) + commits(FoldTo(step, s, log, j, i), log[i])[..r]
  {
    var before, last := AllSteps(step, commits, s, log, j, n - 1), commits(FoldTo(step, s, log, j, n - 1), log[n - 1]);
    PrefixOfSum(before, last, c);
    if c < |before| {
      i, r := CutSplits(step, commits, s, log, j, n - 1, c);
    } else {
      i, r := n - 1, c - |before|;
    }
  }
}
