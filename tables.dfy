/**
 * What the two stores share: a scan of a table keyed by natural ids, used
 * for the lookups that are not by primary key (`findFirst` on the session
 * fingerprint, `findUnique` on the user's unique email).
 */
module Tables {
  import opened Common

  /** The lowest id in [from, to) whose row satisfies `p`, if there is one. */
  function FirstWhere<T>(rows: map<nat, T>, p: T -> bool, from: nat, to: nat): (r: Option<nat>)
    ensures r.Some? ==> from <= r.value < to && r.value in rows && p(rows[r.value])
    ensures r.Some? ==> forall k :: from <= k < r.value && k in rows ==> !p(rows[k])
    ensures r.None? ==> (forall k :: from <= k < to && k in rows ==> !p(rows[k]))
    decreases if from < to then to - from else 0
  {
    if from >= to then None
    else if from in rows && p(rows[from]) then Some(from)
    else FirstWhere(rows, p, from + 1, to)
  }
}
