/** The connection table of the IMAP client and its reconnect loop with exponential backoff
    (plugins/mail/imap/client.py). Delays are whole seconds. */
module Reconnect {

  /** How one connection attempt ends. `Failed` is an error the loop retries on, `Fatal` any other. */
  datatype Attempt = Connected(conn: nat) | Failed | Fatal

  /** How `reconnect` ends. */
  datatype Outcome = Success(conn: nat) | GaveUp | Raised

  /** The delay before retry `i`. */
  function DelayBefore(base: int, max: int, i: nat): int {
    if i == 0 then base else
      var d := DelayBefore(base, max, i - 1);
      if d * 2 < max then d * 2 else max
  }

  function Doubled(base: int, i: nat): int {
    if i == 0 then base else 2 * Doubled(base, i - 1)
  }

  function Total(sleeps: seq<int>): int
    decreases |sleeps|
  {
    if sleeps == [] then 0 else Total(sleeps[..|sleeps| - 1]) + sleeps[|sleeps| - 1]
  }

  /** The sleeps double from `base`, each below `max`. */
  ghost predicate Doubling(base: int, max: int, sleeps: seq<int>) {
    forall i :: 0 <= i < |sleeps| ==> sleeps[i] == Doubled(base, i) && sleeps[i] < max
  }

  lemma {:induction false} TotalDoubles(base: int, max: int, sleeps: seq<int>)
    requires Doubling(base, max, sleeps)
    ensures Total(sleeps) == Doubled(base, |sleeps|) - base
    decreases |sleeps|
  {
    if sleeps != [] {
      TotalDoubles(base, max, sleeps[..|sleeps| - 1]);
    }
  }

  lemma {:induction false} DelayGrows(base: int, max: int, i: nat)
    requires 0 < base < max
    ensures base <= DelayBefore(base, max, i) <= max
    ensures DelayBefore(base, max, i) < max ==> DelayBefore(base, max, i) == Doubled(base, i) >= base + i
    ensures DelayBefore(base, max, i) == max ==> Doubled(base, i) >= max
  {
    if i > 0 { DelayGrows(base, max, i - 1); }
  }

  lemma {:induction false} DelayStays(base: int, max: int, i: nat)
    requires base <= 0 && base < max
    ensures DelayBefore(base, max, i) <= 0 && DelayBefore(base, max, i) < max
  {
    if i > 0 { DelayStays(base, max, i - 1); }
  }

  /** Against a server that never answers the loop ends if and only if the first delay is positive or
      not below the maximum; otherwise it never reaches the maximum. */
  lemma {:induction false} GivesUpIff(base: int, max: int)
    ensures (exists i: nat :: DelayBefore(base, max, i) >= max) <==> base > 0 || base >= max
  {
    if base >= max {
      assert DelayBefore(base, max, 0) >= max;
    } else if base > 0 {
      DelayGrows(base, max, max - base);
      assert DelayBefore(base, max, max - base) >= max;
    } else {
      forall i: nat ensures DelayBefore(base, max, i) < max {
        DelayStays(base, max, i);
      }
    }
  }

  /** All sleeping together takes less than twice the maximum delay. */
  lemma {:induction false} TotalIsBounded(base: int, max: int, sleeps: seq<int>)
    requires base > 0 && Doubling(base, max, sleeps) && sleeps != []
    ensures Total(sleeps) < 2 * max
  {
    TotalDoubles(base, max, sleeps);
    assert sleeps[|sleeps| - 1] == Doubled(base, |sleeps| - 1);
  }

  /** Every attempt before the last was retried; the last one succeeded, raised, or found the next
      delay at the maximum. */
  ghost predicate Ends(base: int, max: int, attempts: nat -> Attempt, sleeps: seq<int>, r: Outcome) {
    && Doubling(base, max, sleeps)
    && (forall i: nat :: i < |sleeps| ==> attempts(i) == Failed)
    && (match r
        case Success(conn) => attempts(|sleeps|) == Connected(conn)
        case GaveUp => attempts(|sleeps|) == Failed && Doubled(base, |sleeps|) >= max
        case Raised => attempts(|sleeps|) == Fatal)
  }

  /** The folder has the new connection if that succeeded and none otherwise; every other folder keeps its
      own. */
  ghost predicate Reopened(before: map<string, nat>, after: map<string, nat>, folder: string, r: Outcome) {
    && (if r.Success? then folder in after && after[folder] == r.conn else folder !in after)
    && (forall f :: f != folder ==> (f in after <==> f in before) && (f in before ==> after[f] == before[f]))
  }

  class Client {
    var connections: map<string, nat>
    const base: int
    const max: int

    constructor (base: int, max: int)
      ensures this.base == base && this.max == max && connections == map[]
    {
      this.base, this.max, connections := base, max, map[];
    }

    method Disconnect(folder: string)
      modifies this
      ensures connections == old(connections) - {folder}
    {
      connections := connections - {folder};
    }

    method Connect(folder: string, attempt: Attempt)
      modifies this
      ensures connections == if attempt.Connected? then old(connections)[folder := attempt.conn] else old(connections)
    {
      if attempt.Connected? {
        connections := connections[folder := attempt.conn];
      }
    }

    method Reconnect(folder: string, attempts: nat -> Attempt) returns (r: Outcome, sleeps: seq<int>)
      requires base > 0 || base >= max
      modifies this
      ensures Ends(base, max, attempts, sleeps, r)
      ensures sleeps != [] ==> Total(sleeps) < 2 * max
      ensures Reopened(old(connections), connections, folder, r)
    {
      Disconnect(folder);
      ghost var before := connections;
      var delay := base;
      sleeps := [];
      while true
        invariant connections == before
        invariant Doubling(base, max, sleeps)
        invariant forall i: nat :: i < |sleeps| ==> attempts(i) == Failed
        invariant delay == DelayBefore(base, max, |sleeps|)
        invariant base >= max ==> sleeps == []
        invariant delay > 0 || delay >= max
        decreases max - delay
      {
        if 0 < base < max { DelayGrows(base, max, |sleeps|); }
        if sleeps != [] { TotalIsBounded(base, max, sleeps); }
        var attempt := attempts(|sleeps|);
        Connect(folder, attempt);
        if attempt.Connected? {
          return Success(attempt.conn), sleeps;
        }
        if attempt.Fatal? {
          return Raised, sleeps;
        }
        if delay >= max {
          return GaveUp, sleeps;
        }
        sleeps := sleeps + [delay];
        delay := if delay * 2 < max then delay * 2 else max;
      }
    }

    /** `ensure_connected`. */
    method EnsureConnected(folder: string, alive: bool, attempts: nat -> Attempt) returns (r: Outcome, sleeps: seq<int>)
      requires base > 0 || base >= max
      modifies this
      ensures if folder in old(connections) && alive
              then r == Success(old(connections)[folder]) && sleeps == [] && connections == old(connections)
              else (Ends(base, max, attempts, sleeps, r)
                    && Reopened(old(connections), connections, folder, r))
    {
      if folder !in connections || !alive {
        r, sleeps := Reconnect(folder, attempts);
      } else {
        r, sleeps := Success(connections[folder]), [];
      }
    }
  }
}
