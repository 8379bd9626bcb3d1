/** The wake-up protocol between the chat.db file watcher (plugins/imessage/watcher.py) and the daemon
    loop (plugins/imessage/plugin.py): a debounce timer on its own thread, an asyncio event set through
    the loop's queue, and a loop that waits, clears, and syncs. Steps interleave freely. */
module Watcher {

  /** `_timer`: none running; waiting until `due`; or a thread that has called back and is still alive. */
  datatype Timer = Idle | Pending(due: real) | Exiting

  /** `_schedule`: while the timer thread is alive the event is collapsed into it. */
  function Scheduled(t: Timer, now: real, debounce: real): Timer {
    if t.Idle? then Pending(now + debounce) else t
  }

  /** The names in the watched directory that count as chat.db. */
  predicate Relevant(target: string, isDirectory: bool, name: string) {
    !isDirectory && (name == target || name == target + "-wal" || name == target + "-shm")
  }

  /** `_DebouncedChatDbHandler`. */
  class DebouncedHandler {
    const target: string
    const debounce: real
    var timer: Timer

    constructor (target: string, debounce: real)
      ensures this.target == target && this.debounce == debounce && timer == Idle
    {
      this.target, this.debounce, timer := target, debounce, Idle;
    }

    /** `on_modified` and `on_created`: an event on the database, its -wal or its -shm is the step `Change` of
        the protocol below, any other event is no step. */
    method OnModified(isDirectory: bool, name: string, now: real)
      modifies this
      ensures timer == if Relevant(target, isDirectory, name) then Scheduled(old(timer), now, debounce) else old(timer)
      ensures !isDirectory && (name == target || name == target + "-wal" || name == target + "-shm") ==>
                forall s: State :: (s.timer == old(timer) && s.now == now ==>
                                    Next(s, Change, debounce) == s.(timer := timer, unseen := true))
      ensures isDirectory || (name != target && name != target + "-wal" && name != target + "-shm") ==>
                timer == old(timer)
    {
      if isDirectory {
        return;
      }
      if name in {target, target + "-wal", target + "-shm"} {
        Schedule(now);
      }
    }

    method Schedule(now: real)
      modifies this
      ensures timer == Scheduled(old(timer), now, debounce)
      ensures timer == if old(timer).Idle? then Pending(now + debounce) else old(timer)
    {
      if timer != Idle {
        return;
      }
      timer := Pending(now + debounce);
    }
  }

  // ---------------------------------------------------------------- the protocol

  /** `queued` is a pending `sync_event.set`, `flag` the event itself, `unseen` whether a relevant change
      has come since the last sync started, `fires` the times the callback has run. */
  datatype State = State(now: real, timer: Timer, queued: bool, flag: bool, syncing: bool, unseen: bool,
                         fires: seq<real>)

  datatype Step =
    | Tick(d: real)     // time passes; a due timer is not left waiting
    | Change            // a relevant file event reaches the handler
    | Fire              // the timer thread runs `_fire`, which queues the set
    | Exit              // the timer thread ends
    | Deliver           // the event loop runs the queued set
    | Wake              // wait() returns, the event is cleared, sync_once starts
    | Finish            // sync_once ends, with or without an exception

  predicate Enabled(s: State, a: Step) {
    match a
    case Tick(d) => d > 0.0 && (s.timer.Pending? ==> s.now + d <= s.timer.due)
    case Change => true
    case Fire => s.timer.Pending? && s.now >= s.timer.due
    case Exit => s.timer.Exiting?
    case Deliver => s.queued
    case Wake => s.flag && !s.syncing
    case Finish => s.syncing
  }

  function Next(s: State, a: Step, debounce: real): State {
    match a
    case Tick(d) => s.(now := s.now + d)
    case Change => s.(timer := Scheduled(s.timer, s.now, debounce), unseen := true)
    case Fire => s.(timer := Exiting, queued := true, fires := s.fires + [s.now])
    case Exit => s.(timer := Idle)
    case Deliver => s.(queued := false, flag := true)
    case Wake => s.(flag := false, syncing := true, unseen := false)
    case Finish => s.(syncing := false)
  }

  /** The watcher has just started, after the initial sync. */
  const INIT := State(0.0, Idle, false, false, false, false, [])

  function After(steps: seq<Step>, debounce: real): State
    decreases |steps|
  {
    if steps == [] then INIT else Next(After(steps[..|steps| - 1], debounce), steps[|steps| - 1], debounce)
  }

  predicate Possible(steps: seq<Step>, debounce: real)
    decreases |steps|
  {
    steps == [] || (Possible(steps[..|steps| - 1], debounce)
                    && Enabled(After(steps[..|steps| - 1], debounce), steps[|steps| - 1]))
  }

  /** A wake-up is on its way. */
  predicate Armed(s: State) {
    s.timer.Pending? || s.queued || s.flag
  }

  /** A change that arrives while the timer thread has called back but not ended, and the wake-up it
      caused has been consumed: it is collapsed into a fire that is over. */
  predicate Collapsed(s: State, a: Step) {
    a.Change? && s.timer.Exiting? && !s.queued && !s.flag
  }

  predicate NoneCollapsed(steps: seq<Step>, debounce: real)
    decreases |steps|
  {
    steps == [] || (NoneCollapsed(steps[..|steps| - 1], debounce)
                    && !Collapsed(After(steps[..|steps| - 1], debounce), steps[|steps| - 1]))
  }

  /** Throughout the run, whatever the syncs have not seen has a wake-up on its way. */
  predicate NeverLost(steps: seq<Step>, debounce: real) {
    forall n :: 0 <= n <= |steps| ==> (After(steps[..n], debounce).unseen ==> Armed(After(steps[..n], debounce)))
  }

  lemma {:induction false} StepKeepsArmed(s: State, a: Step, debounce: real)
    requires Enabled(s, a) && (s.unseen ==> Armed(s))
    ensures var t := Next(s, a, debounce); (t.unseen ==> Armed(t)) <==> !Collapsed(s, a)
  {
  }

  /** No wake-up is lost if and only if no change is collapsed into a finished fire. */
  lemma {:induction false} NoLostWakeupIff(steps: seq<Step>, debounce: real)
    requires Possible(steps, debounce)
    ensures NeverLost(steps, debounce) <==> NoneCollapsed(steps, debounce)
    decreases |steps|
  {
    if steps == [] {
      assert steps[..0] == [];
    } else {
      var front, a := steps[..|steps| - 1], steps[|steps| - 1];
      NoLostWakeupIff(front, debounce);
      assert steps[..|steps|] == steps;
      assert forall n :: 0 <= n <= |front| ==> steps[..n] == front[..n];
      var s := After(front, debounce);
      assert front[..|front|] == front;
      if NeverLost(front, debounce) {
        assert s.unseen ==> Armed(s);
        StepKeepsArmed(s, a, debounce);
        assert After(steps, debounce) == Next(s, a, debounce);
        if !Collapsed(s, a) {
          assert NeverLost(steps, debounce);
        } else {
          assert !(After(steps[..|steps|], debounce).unseen ==> Armed(After(steps[..|steps|], debounce)));
        }
      } else {
        var n :| 0 <= n <= |front| && !(After(front[..n], debounce).unseen ==> Armed(After(front[..n], debounce)));
        assert steps[..n] == front[..n];
      }
    }
  }

  /** The timer thread's callback and its end are one step. */
  predicate AtomicCallback(steps: seq<Step>) {
    forall k :: 0 <= k < |steps| - 1 && steps[k].Fire? ==> steps[k + 1].Exit?
  }

  lemma {:induction false} ExitingAfterFire(steps: seq<Step>, debounce: real)
    requires Possible(steps, debounce) && AtomicCallback(steps)
    ensures After(steps, debounce).timer.Exiting? ==> steps != [] && steps[|steps| - 1].Fire?
    ensures NoneCollapsed(steps, debounce)
    decreases |steps|
  {
    if steps != [] {
      var front := steps[..|steps| - 1];
      ExitingAfterFire(front, debounce);
      if After(front, debounce).timer.Exiting? {
        assert front[|front| - 1] == steps[|steps| - 2];
      }
    }
  }

  /** So with a thread that ends with its callback no wake-up is ever lost. */
  lemma {:induction false} AtomicCallbackLosesNothing(steps: seq<Step>, debounce: real)
    requires Possible(steps, debounce) && AtomicCallback(steps)
    ensures NeverLost(steps, debounce)
  {
    ExitingAfterFire(steps, debounce);
    NoLostWakeupIff(steps, debounce);
  }

  /** Such a run exists: the change in the middle is seen by no sync and wakes nobody. */
  lemma {:induction false} WakeupCanBeLost()
    ensures var steps := [Change, Tick(2.0), Fire, Deliver, Wake, Change, Finish, Exit];
            && Possible(steps, 2.0)
            && After(steps, 2.0).unseen && !Armed(After(steps, 2.0)) && After(steps, 2.0).timer.Idle?
  {
    var s0 := [Change];
    var s1 := s0 + [Tick(2.0)];
    var s2 := s1 + [Fire];
    var s3 := s2 + [Deliver];
    var s4 := s3 + [Wake];
    var s5 := s4 + [Change];
    var s6 := s5 + [Finish];
    var s7 := s6 + [Exit];
    assert s0[..0] == [];
    assert s1[..1] == s0 && s2[..2] == s1 && s3[..3] == s2 && s4[..4] == s3;
    assert s5[..5] == s4 && s6[..6] == s5 && s7[..7] == s6;
    assert After(s0, 2.0) == State(0.0, Pending(2.0), false, false, false, true, []);
    assert After(s1, 2.0) == State(2.0, Pending(2.0), false, false, false, true, []);
    assert After(s2, 2.0) == State(2.0, Exiting, true, false, false, true, [2.0]);
    assert After(s3, 2.0) == State(2.0, Exiting, false, true, false, true, [2.0]);
    assert After(s4, 2.0) == State(2.0, Exiting, false, false, true, false, [2.0]);
    assert After(s5, 2.0) == State(2.0, Exiting, false, false, true, true, [2.0]);
    assert After(s6, 2.0) == State(2.0, Exiting, false, false, false, true, [2.0]);
    assert Possible(s0, 2.0);
    assert Possible(s1, 2.0);
    assert Possible(s2, 2.0);
    assert Possible(s3, 2.0);
    assert Possible(s4, 2.0);
    assert Possible(s5, 2.0);
    assert Possible(s6, 2.0);
    assert Possible(s7, 2.0);
    assert s7 == [Change, Tick(2.0), Fire, Deliver, Wake, Change, Finish, Exit];
  }

  // ---------------------------------------------------------------- rate and delay

  /** A pending timer is due a full debounce period after every earlier fire, and not overdue. */
  ghost predicate Spaced(s: State, debounce: real) {
    && (forall i :: 0 <= i < |s.fires| ==> s.fires[i] <= s.now)
    && (s.timer.Pending? ==> s.now <= s.timer.due <= s.now + debounce)
    && (s.timer.Pending? ==> (forall i :: 0 <= i < |s.fires| ==> s.timer.due >= s.fires[i] + debounce))
    && (forall i, j :: 0 <= i < j < |s.fires| ==> s.fires[j] - s.fires[i] >= debounce)
  }

  lemma {:induction false} StepKeepsSpaced(s: State, a: Step, debounce: real)
    requires Enabled(s, a) && debounce >= 0.0 && Spaced(s, debounce)
    ensures Spaced(Next(s, a, debounce), debounce)
  {
  }

  lemma {:induction false} TimerIsSpaced(steps: seq<Step>, debounce: real)
    requires Possible(steps, debounce) && debounce >= 0.0
    ensures Spaced(After(steps, debounce), debounce)
    decreases |steps|
  {
    if steps != [] {
      var front := steps[..|steps| - 1];
      TimerIsSpaced(front, debounce);
      StepKeepsSpaced(After(front, debounce), steps[|steps| - 1], debounce);
    }
  }

  /** The callback runs at most once per debounce period. */
  lemma {:induction false} FiresAreApart(steps: seq<Step>, debounce: real, i: nat, j: nat)
    requires Possible(steps, debounce) && debounce >= 0.0 && i < j < |After(steps, debounce).fires|
    ensures After(steps, debounce).fires[j] - After(steps, debounce).fires[i] >= debounce
  {
    TimerIsSpaced(steps, debounce);
  }

  /** Since the state `before` the callback has run in time, or the timer is set so that it will. */
  predicate FiresInTime(before: State, s: State, debounce: real) {
    && |before.fires| <= |s.fires|
    && (if |s.fires| == |before.fires| then s.timer.Pending? && s.timer.due <= before.now + debounce
        else before.now <= s.fires[|before.fires|] <= before.now + debounce)
  }

  lemma {:induction false} StepFiresInTime(before: State, s: State, a: Step, debounce: real)
    requires Enabled(s, a) && FiresInTime(before, s, debounce)
    requires before.now <= s.now && (s.timer.Pending? ==> s.now <= s.timer.due)
    ensures FiresInTime(before, Next(s, a, debounce), debounce)
  {
  }

  /** A change that is not collapsed into an exiting thread is followed by a fire in time. */
  lemma {:induction false} FireFollows(steps: seq<Step>, k: nat, debounce: real)
    requires Possible(steps, debounce) && debounce >= 0.0 && k < |steps| && steps[k].Change?
    requires !After(steps[..k], debounce).timer.Exiting?
    ensures FiresInTime(After(steps[..k], debounce), After(steps, debounce), debounce)
    decreases |steps|
  {
    var front := steps[..|steps| - 1];
    TimerIsSpaced(front, debounce);
    if k == |front| {
      assert steps[..k] == front;
    } else {
      assert front[..k] == steps[..k];
      FireFollows(front, k, debounce);
      NowGrows(front, k, debounce);
      StepFiresInTime(After(steps[..k], debounce), After(front, debounce), steps[|steps| - 1], debounce);
    }
  }

  lemma {:induction false} StepAdvances(s: State, a: Step, debounce: real)
    requires Enabled(s, a)
    ensures Next(s, a, debounce).now >= s.now
  {
  }

  lemma {:induction false} NowGrows(steps: seq<Step>, k: nat, debounce: real)
    requires Possible(steps, debounce) && k <= |steps|
    ensures After(steps[..k], debounce).now <= After(steps, debounce).now
    decreases |steps|
  {
    if k == |steps| {
      assert steps[..k] == steps;
    } else {
      var front, last := steps[..|steps| - 1], steps[|steps| - 1];
      assert front[..k] == steps[..k];
      NowGrows(front, k, debounce);
      StepAdvances(After(front, debounce), last, debounce);
    }
  }

  /** So once more than a debounce period has passed since such a change, the callback has run. */
  lemma {:induction false} ChangeFiresInTime(steps: seq<Step>, k: nat, debounce: real)
    requires Possible(steps, debounce) && debounce >= 0.0 && k < |steps| && steps[k].Change?
    requires !After(steps[..k], debounce).timer.Exiting?
    requires After(steps, debounce).now > After(steps[..k], debounce).now + debounce
    ensures var n := |After(steps[..k], debounce).fires|;
            && n < |After(steps, debounce).fires|
            && After(steps[..k], debounce).now <= After(steps, debounce).fires[n]
            && After(steps, debounce).fires[n] <= After(steps[..k], debounce).now + debounce
  {
    FireFollows(steps, k, debounce);
    TimerIsSpaced(steps, debounce);
  }
}
