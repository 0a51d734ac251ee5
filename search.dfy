/**
 * The two scans a regular-expression engine makes over candidate
 * positions: the leftmost position where a pattern matches, and (for a
 * greedy run that gives characters back) the rightmost one.
 */
module Search {
  import opened JsValues

  /** The first position in `from..end` where `f` holds. */
  function FirstWhere(f: nat -> bool, from: nat, end: nat): (r: Option<nat>)
    ensures r.Some? ==> from <= r.value < end && f(r.value)
    decreases end - from
  {
    if from >= end then None
    else if f(from) then Some(from)
    else FirstWhere(f, from + 1, end)
  }

  /** Nothing before the position found satisfies `f`, and nothing at all when none is found. */
  lemma {:induction false} FirstWhereIsFirst(f: nat -> bool, from: nat, end: nat)
    ensures var r := FirstWhere(f, from, end);
            r.Some? ==> forall p :: from <= p < r.value ==> !f(p)
    ensures FirstWhere(f, from, end).None? ==> forall p :: from <= p < end ==> !f(p)
    decreases end - from
  {
    if from < end && !f(from) {
      FirstWhereIsFirst(f, from + 1, end);
    }
  }

  /** The last position in `start..q` (both included) where `f` holds. */
  function LastWhere(f: nat -> bool, start: nat, q: int): (r: Option<nat>)
    ensures r.Some? ==> start <= r.value <= q && f(r.value)
    decreases q - start + 1
  {
    if q < start then None
    else if f(q) then Some(q)
    else LastWhere(f, start, q - 1)
  }

  /** Nothing after the position found satisfies `f`, and nothing at all when none is found. */
  lemma {:induction false} LastWhereIsLast(f: nat -> bool, start: nat, q: int)
    ensures var r := LastWhere(f, start, q);
            r.Some? ==> forall p :: r.value < p <= q ==> !f(p)
    ensures LastWhere(f, start, q).None? ==> forall p :: start <= p <= q ==> !f(p)
    decreases q - start + 1
  {
    if q >= start && !f(q) {
      LastWhereIsLast(f, start, q - 1);
    }
  }

  /** A tail of the range where `f` never holds can be dropped from the search. */
  lemma {:induction false} LastWhereSkips(f: nat -> bool, start: nat, mid: nat, q: int)
    requires start <= mid <= q + 1
    requires forall p :: mid <= p <= q ==> !f(p)
    ensures LastWhere(f, start, q) == LastWhere(f, start, mid - 1)
    decreases q - start + 1
  {
    if q >= mid {
      LastWhereSkips(f, start, mid, q - 1);
    }
  }
}
