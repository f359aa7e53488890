/** Distribution of the quadrants over the ranks, as an arbitrary map. */
module Ranks {

  /** Each quadrant has an owner and a local index there. view(r, q) is the index under
      which rank r knows quadrant q of another rank: ghosts of one owner are kept in the
      owner's order, whatever their numbers (the owner's own index is a special case). */
  datatype Partition = Partition(nproc: nat, owner: nat -> nat, lid: nat -> nat, view: (nat, nat) -> nat) {

    ghost predicate Valid(nq: nat) {
      && (forall q | 0 <= q < nq :: owner(q) < nproc)
      && (forall p, q | 0 <= p < nq && 0 <= q < nq && owner(p) == owner(q) && p != q :: lid(p) != lid(q))
      && (forall r, p, q | 0 <= p < nq && 0 <= q < nq && owner(p) == owner(q) && lid(p) < lid(q) :: view(r, p) < view(r, q))
    }

    /** The quadrant id a descriptor on rank r records for quadrant q. */
    function Qid(r: nat, q: nat): nat {
      if owner(q) == r then lid(q) else view(r, q)
    }
  }
}
