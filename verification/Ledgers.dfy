/** Reference counts: a ledger maps each reference to what it refers to, and a counter is the
    number of holders. Page frames, open files and in-core inodes are counted this way. */
module Ledgers {
  ghost function Holders<R(!new)>(l: map<R, nat>, f: nat): set<R> {
    set r | r in l && l[r] == f
  }

  lemma HoldersPut<R(!new)>(l: map<R, nat>, r: R, f: nat, g: nat)
    ensures Holders(l[r := f], g) == (Holders(l, g) - {r}) + (if f == g then {r} else {})
  {
  }

  lemma HoldersDrop<R(!new)>(l: map<R, nat>, r: R, g: nat)
    ensures Holders(l - {r}, g) == Holders(l, g) - {r}
  {
  }

  /** The counters agree with the ledger on everything that is not reserved. */
  ghost predicate Counted<R(!new)>(count: seq<int>, rsvd: seq<bool>, l: map<R, nat>) {
    && |count| == |rsvd|
    && forall f: nat | f < |count| && !rsvd[f] :: count[f] == |Holders(l, f)|
  }

  /** A new reference raises the counter of its target by one. */
  lemma CountedAdd<R(!new)>(count: seq<int>, rsvd: seq<bool>, l: map<R, nat>, r: R, f: nat)
    requires Counted(count, rsvd, l) && r !in l && f < |count|
    ensures Counted(count[f := count[f] + 1], rsvd, l[r := f])
  {
    forall g: nat | g < |count| && !rsvd[g]
      ensures count[f := count[f] + 1][g] == |Holders(l[r := f], g)|
    {
      HoldersPut(l, r, f, g);
      assert r !in Holders(l, g);
    }
  }

  /** A reference given up lowers it by one. */
  lemma CountedDrop<R(!new)>(count: seq<int>, rsvd: seq<bool>, l: map<R, nat>, r: R)
    requires Counted(count, rsvd, l) && r in l && l[r] < |count| && !rsvd[l[r]]
    ensures count[l[r]] > 0
    ensures Counted(count[l[r] := count[l[r]] - 1], rsvd, l - {r})
  {
    var f := l[r];
    assert r in Holders(l, f);
    assert |Holders(l, f)| > 0;
    forall g: nat | g < |count| && !rsvd[g]
      ensures count[f := count[f] - 1][g] == |Holders(l - {r}, g)|
    {
      HoldersDrop(l, r, g);
      assert g != f ==> r !in Holders(l, g);
    }
  }

  /** Renaming a reference without moving it changes no counter. */
  lemma CountedRename<R(!new)>(count: seq<int>, rsvd: seq<bool>, l: map<R, nat>, r: R, r': R)
    requires Counted(count, rsvd, l) && r in l && r' !in l
    ensures Counted(count, rsvd, (l - {r})[r' := l[r]])
  {
    forall g: nat | g < |count| && !rsvd[g]
      ensures count[g] == |Holders((l - {r})[r' := l[r]], g)|
    {
      HoldersDrop(l, r, g);
      HoldersPut(l - {r}, r', l[r], g);
      assert r in Holders(l, l[r]) && r' !in Holders(l, g);
      assert g != l[r] ==> r !in Holders(l, g);
    }
  }

  /** What is counted once has one holder. */
  lemma SoleHolder<R(!new)>(l: map<R, nat>, r: R, r': R)
    requires r in l && r' in l && l[r] == l[r'] && |Holders(l, l[r])| == 1
    ensures r == r'
  {
    var h := Holders(l, l[r]);
    assert h == {r} + (h - {r});
    assert |h - {r}| == 0;
    assert r' in h;
  }

  /** A set of references that can be numbered apart below n has at most n members. */
  lemma {:induction false} AtMost<R(!new)>(h: set<R>, code: R -> nat, n: nat)
    requires forall r | r in h :: code(r) < n
    requires forall r, r' | r in h && r' in h && r != r' :: code(r) != code(r')
    ensures |h| <= n
  {
    if h == {} {
      return;
    }
    var any :| any in h;
    assert code(any) < n;
    if r :| r in h && code(r) == n - 1 {
      AtMost(h - {r}, code, n - 1);
    } else {
      AtMost(h, code, n - 1);
    }
  }
}
