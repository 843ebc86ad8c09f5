/**
 * Path costs and priorities. The source keeps them in doubles, but every
 * value it forms is a whole number or +infinity.
 */
module Costs {

  /** A whole-number cost, or +infinity (`INFINITY`). */
  datatype Cost = Fin(n: nat) | Inf

  /** Addition; infinity absorbs, as in floating point. */
  function Plus(a: Cost, b: Cost): (r: Cost)
    ensures r.Inf? <==> a.Inf? || b.Inf?
    ensures r.Fin? ==> r.n == a.n + b.n
  {
    if a.Fin? && b.Fin? then Fin(a.n + b.n) else Inf
  }

  /** The comparison `<`; infinity is not below itself. */
  predicate Lt(a: Cost, b: Cost)
  {
    a.Fin? && (b.Inf? || a.n < b.n)
  }

  predicate Le(a: Cost, b: Cost)
  {
    !Lt(b, a)
  }

  /** `Lt` is a strict total order on costs. */
  lemma LtIsStrictTotalOrder(a: Cost, b: Cost, c: Cost)
    ensures !Lt(a, a)
    ensures Lt(a, b) ==> !Lt(b, a)
    ensures Lt(a, b) && Lt(b, c) ==> Lt(a, c)
    ensures a != b ==> Lt(a, b) || Lt(b, a)
  {
  }
}
