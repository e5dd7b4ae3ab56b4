module Sequences {
  /** No element occurs twice. */
  ghost predicate Distinct(q: seq<nat>) {
    forall i, j | 0 <= i < j < |q| :: q[i] != q[j]
  }
}
