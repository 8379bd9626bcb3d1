/** Small shared vocabulary: optional values, results, and SQLite's row-id allocation. */
module Prelude {

  datatype Option<+T> = None | Some(value: T)

  /** The ways a write is refused. Every refusal leaves the tables as they were. */
  datatype Failure = SelfMerge | ForeignKey | UniqueKey | UnknownAccount | UnknownOwner

  datatype Result<+T> = Ok(value: T) | Err(error: Failure)

  lemma {:induction false} MaxExists(s: set<nat>)
    requires s != {}
    ensures exists m :: m in s && forall x :: x in s ==> x <= m
  {
    var x :| x in s;
    if s - {x} == {} {
      assert s == {x};
    } else {
      MaxExists(s - {x});
      var m :| m in s - {x} && forall y :: y in s - {x} ==> y <= m;
      assert forall y :: y in s ==> y == x || y in s - {x};
      assert (if m < x then x else m) in s;
    }
  }

  /** SQL's MAX over a column of non-negative integers; 0 over no rows. */
  function MaxOf(s: set<nat>): (m: nat)
    ensures forall x :: x in s ==> x <= m
    ensures s == {} ==> m == 0
    ensures s != {} ==> m in s
  {
    if s == {} then 0 else
      MaxExists(s);
      var m :| m in s && forall y :: y in s ==> y <= m;
      m
  }

  /** The id SQLite gives a new row of an INTEGER PRIMARY KEY table: one more than the largest
      in use. Without AUTOINCREMENT the id of a deleted last row is handed out again. */
  function NextId(used: set<nat>): (id: nat)
    ensures id !in used && id > 0
    ensures forall x :: x in used ==> x < id
    ensures id == 1 || id - 1 in used
  {
    MaxOf(used) + 1
  }
}
