/** Trees stored as one parent link per node, numbered so that links go to smaller
    numbers.  Dominator trees and depth-first spanning trees are of this kind. */
module LinkTree {

  datatype Link = NoLink | To(block: nat)

  /** Links go up the block order, so they are acyclic and end at the entry. */
  ghost predicate Tree(doms: seq<Link>) {
    && |doms| > 0
    && doms[0] == To(0)
    && forall b :: 0 < b < |doms| && doms[b].To? ==> Parent(doms, b)
  }

  ghost predicate Parent(doms: seq<Link>, b: nat)
    requires 0 < b < |doms| && doms[b].To?
  {
    doms[b].block < b && doms[doms[b].block].To?
  }

  /** `a` is `b` or one of its ancestors. */
  ghost predicate Above(doms: seq<Link>, a: nat, b: nat)
    requires Tree(doms) && b < |doms| && doms[b].To?
    decreases b
  {
    a == b || (b > 0 && assert Parent(doms, b); Above(doms, a, doms[b].block))
  }

  lemma {:induction false} AboveOrder(doms: seq<Link>, a: nat, b: nat)
    requires Tree(doms) && b < |doms| && doms[b].To? && Above(doms, a, b)
    ensures a <= b && doms[a].To?
    decreases b
  {
    if a != b {
      AboveOrder(doms, a, doms[b].block);
    }
  }

  lemma {:induction false} AboveTransitive(doms: seq<Link>, a: nat, b: nat, c: nat)
    requires Tree(doms) && c < |doms| && doms[c].To? && Above(doms, b, c)
    requires b < |doms| && doms[b].To? && Above(doms, a, b)
    ensures Above(doms, a, c)
    decreases c
  {
    if b != c {
      AboveTransitive(doms, a, b, doms[c].block);
    }
  }
}
