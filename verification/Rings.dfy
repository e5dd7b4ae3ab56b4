/** Circular doubly linked lists in `next`/`prev` tables, with a head node that is not an
    element: the `av_*` and `b_*` chains of buffers. */
module Rings {
  import opened BufferCache
  import opened Sequences

  /** Node i of the ring, counting the head as nodes 0 and |q| + 1. */
  function Node(h: nat, q: seq<nat>, i: nat): nat {
    if 1 <= i <= |q| then q[i - 1] else h
  }

  ghost predicate Ring(h: nat, next: seq<nat>, prev: seq<nat>, q: seq<nat>) {
    && |next| == |prev| && h < |next| && Below(q, |next|) && Distinct(q) && h !in q
    && (forall i | 0 <= i <= |q| :: next[Node(h, q, i)] == Node(h, q, i + 1))
    && (forall i | 0 <= i <= |q| :: prev[Node(h, q, i + 1)] == Node(h, q, i))
  }

  lemma NodeMember(h: nat, q: seq<nat>, i: nat)
    ensures Node(h, q, i) == h || Node(h, q, i) in q
  {
  }

  /** Nodes at different places are different. */
  lemma NodesDiffer(h: nat, q: seq<nat>, i: nat, j: nat)
    requires Distinct(q) && h !in q && i <= |q| && j <= |q|
    ensures Node(h, q, i) == Node(h, q, j) ==> i == j
    ensures Node(h, q, i + 1) == Node(h, q, j + 1) ==> i == j
  {
  }

  /** A ring is not disturbed by updates elsewhere. */
  lemma RingFrame(h: nat, next: seq<nat>, prev: seq<nat>, next': seq<nat>, prev': seq<nat>, q: seq<nat>)
    requires Ring(h, next, prev, q) && |next'| == |prev'| == |next|
    requires next'[h] == next[h] && prev'[h] == prev[h]
    requires forall x: nat | x in q :: x < |next| ==> next'[x] == next[x] && prev'[x] == prev[x]
    ensures Ring(h, next', prev', q)
  {
    forall i | 0 <= i <= |q| ensures next'[Node(h, q, i)] == Node(h, q, i + 1) { NodeMember(h, q, i); }
    forall i | 0 <= i <= |q| ensures prev'[Node(h, q, i + 1)] == Node(h, q, i) { NodeMember(h, q, i + 1); }
  }

  lemma InsertNext(h: nat, next: seq<nat>, prev: seq<nat>, q: seq<nat>, k: nat, b: nat, i: nat)
    requires Ring(h, next, prev, q) && k <= |q| && b < |next| && b !in q && b != h && i <= |q| + 1
    ensures var p, n, q' := Node(h, q, k), Node(h, q, k + 1), q[..k] + [b] + q[k..];
            p < |next| && Node(h, q', i) < |next| && next[b := n][p := b][Node(h, q', i)] == Node(h, q', i + 1)
  {
    InsertAt(h, q, k, b, i);
    InsertAt(h, q, k, b, i + 1);
    NodeMember(h, q, i);
    assert next[Node(h, q, k)] == Node(h, q, k + 1);
    if i <= k {
      NodesDiffer(h, q, i, k);
    } else if i > k + 1 {
      NodesDiffer(h, q, i - 1, k);
      NodeMember(h, q, i - 1);
    }
  }

  lemma InsertPrev(h: nat, next: seq<nat>, prev: seq<nat>, q: seq<nat>, k: nat, b: nat, i: nat)
    requires Ring(h, next, prev, q) && k <= |q| && b < |next| && b !in q && b != h && i <= |q| + 1
    ensures var p, n, q' := Node(h, q, k), Node(h, q, k + 1), q[..k] + [b] + q[k..];
            n < |next| && Node(h, q', i + 1) < |next| && prev[b := p][n := b][Node(h, q', i + 1)] == Node(h, q', i)
  {
    InsertAt(h, q, k, b, i);
    InsertAt(h, q, k, b, i + 1);
    NodeMember(h, q, i + 1);
    NodeMember(h, q, i);
    assert prev[Node(h, q, k + 1)] == Node(h, q, k);
    if i < k { NodesDiffer(h, q, i, k); } else if i > k { NodesDiffer(h, q, i - 1, k); }
  }

  /** Linking b in between two neighbours. */
  lemma RingInsert(h: nat, next: seq<nat>, prev: seq<nat>, q: seq<nat>, k: nat, b: nat)
    requires Ring(h, next, prev, q) && k <= |q| && b < |next| && b !in q && b != h
    ensures var p, n := Node(h, q, k), Node(h, q, k + 1);
            && p < |next| && n < |next| && p != b && n != b && next[p] == n && prev[n] == p
            && Ring(h, next[b := n][p := b], prev[b := p][n := b], q[..k] + [b] + q[k..])
  {
    hide Node;
    var p, n := Node(h, q, k), Node(h, q, k + 1);
    NodeMember(h, q, k);
    NodeMember(h, q, k + 1);
    var next', prev', q' := next[b := n][p := b], prev[b := p][n := b], q[..k] + [b] + q[k..];
    forall i: nat ensures Node(h, q', i) < |next| { NodeMember(h, q', i); }
    forall i | 0 <= i <= |q'| ensures next'[Node(h, q', i)] == Node(h, q', i + 1) { InsertNext(h, next, prev, q, k, b, i); }
    forall i | 0 <= i <= |q'| ensures prev'[Node(h, q', i + 1)] == Node(h, q', i) { InsertPrev(h, next, prev, q, k, b, i); }
  }

  lemma InsertAt(h: nat, q: seq<nat>, k: nat, b: nat, i: nat)
    requires k <= |q|
    ensures Node(h, q[..k] + [b] + q[k..], i) ==
            if i <= k then Node(h, q, i) else if i == k + 1 then b else Node(h, q, i - 1)
  {
  }

  /** Unlinking element k. */
  lemma RingDelete(h: nat, next: seq<nat>, prev: seq<nat>, q: seq<nat>, k: nat)
    requires Ring(h, next, prev, q) && k < |q|
    ensures var p, n := Node(h, q, k), Node(h, q, k + 2);
            && p < |next| && n < |next| && p != q[k] && n != q[k] && prev[q[k]] == p && next[q[k]] == n
            && Ring(h, next[p := n], prev[n := p], q[..k] + q[k + 1..])
  {
    var p, n := Node(h, q, k), Node(h, q, k + 2);
    var next', prev', q' := next[p := n], prev[n := p], q[..k] + q[k + 1..];
    assert Node(h, q, k + 1) == q[k];
    NodesDiffer(h, q, k, k + 1);
    forall i | 0 <= i <= |q'| ensures next'[Node(h, q', i)] == Node(h, q', i + 1) {
      DeleteAt(h, q, k, i);
      DeleteAt(h, q, k, i + 1);
      if i <= k { NodesDiffer(h, q, i, k); } else { NodesDiffer(h, q, i + 1, k); }
    }
    forall i | 0 <= i <= |q'| ensures prev'[Node(h, q', i + 1)] == Node(h, q', i) {
      DeleteAt(h, q, k, i);
      DeleteAt(h, q, k, i + 1);
      if i < k { NodesDiffer(h, q, i, k + 1); } else { NodesDiffer(h, q, i + 1, k + 1); }
    }
  }

  lemma DeleteAt(h: nat, q: seq<nat>, k: nat, i: nat)
    requires k < |q|
    ensures Node(h, q[..k] + q[k + 1..], i) == if i <= k then Node(h, q, i) else Node(h, q, i + 1)
  {
  }

  /** Taking out element k by value or by position is the same. */
  lemma {:induction false} WithoutAt(q: seq<nat>, k: nat)
    requires Distinct(q) && k < |q|
    ensures Without(q, q[k]) == q[..k] + q[k + 1..]
  {
    hide Distinct;
    DistinctTail(q, k);
    if k == 0 {
      assert q[..0] + q[1..] == q[1..];
    } else {
      Glue(q, k);
      WithoutAt(q[1..], k - 1);
    }
  }

  lemma DistinctTail(q: seq<nat>, k: nat)
    requires Distinct(q) && k < |q|
    ensures Distinct(q[1..]) && (k > 0 ==> q[0] != q[k] && q[1..][k - 1] == q[k])
  {
  }

  lemma Glue(q: seq<nat>, k: nat)
    requires 0 < k < |q|
    ensures [q[0]] + (q[1..][..k - 1] + q[1..][k..]) == q[..k] + q[k + 1..]
  {
  }
}
