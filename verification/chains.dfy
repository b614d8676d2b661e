/** Cluster chains as lists threaded through the FAT, independent of how it is stored. */
module Chains {

  /** ch is a terminated chain: distinct clusters, each entry naming the next, the last
      holding an end mark (a value that is no cluster number). */
  ghost predicate IsChain(f: seq<nat>, ch: seq<nat>) {
    && ch != []
    && (forall i :: 0 <= i < |ch| ==> 2 <= ch[i] < |f|)
    && (forall i, j :: 0 <= i < j < |ch| ==> ch[i] != ch[j])
    && (forall i :: 0 <= i < |ch| - 1 ==> f[ch[i]] == ch[i + 1])
    && f[ch[|ch| - 1]] >= |f|
  }

  ghost predicate Disjoint(a: seq<nat>, b: seq<nat>) {
    forall c :: c in a ==> c !in b
  }

  /** Some chain of the family holds c. */
  ghost predicate Owned(cs: set<seq<nat>>, c: nat) {
    exists a :: a in cs && c in a
  }

  /** The FAT is exactly a family of disjoint terminated chains and free clusters. */
  ghost predicate Forest(f: seq<nat>, cs: set<seq<nat>>) {
    && (forall a :: a in cs ==> IsChain(f, a))
    && (forall a, b :: a in cs && b in cs && a != b ==> Disjoint(a, b))
    && (forall c: nat :: 2 <= c < |f| && f[c] != 0 ==> Owned(cs, c))
  }

  /** f with every cluster of ch marked free. */
  function Cleared(f: seq<nat>, ch: seq<nat>): (r: seq<nat>)
    ensures |r| == |f|
    ensures forall c :: 0 <= c < |f| ==> r[c] == if c in ch then 0 else f[c]
  {
    seq(|f|, c requires 0 <= c < |f| => if c in ch then 0 else f[c])
  }

  /** Number of free clusters below k. */
  function FreeBelow(f: seq<nat>, k: nat): nat
    requires k <= |f|
  {
    if k <= 2 then 0 else FreeBelow(f, k - 1) + (if f[k - 1] == 0 then 1 else 0)
  }

  function Free(f: seq<nat>): nat {
    FreeBelow(f, |f|)
  }

  lemma {:induction false} FreeUpdateBelow(f: seq<nat>, c: nat, v: nat, k: nat)
    requires 2 <= c < |f| && k <= |f|
    ensures FreeBelow(f[c := v], k) + (if c < k && f[c] == 0 then 1 else 0)
         == FreeBelow(f, k) + (if c < k && v == 0 then 1 else 0)
  {
    if k > 2 { FreeUpdateBelow(f, c, v, k - 1); }
  }

  lemma FreeUpdate(f: seq<nat>, c: nat, v: nat)
    requires 2 <= c < |f|
    ensures Free(f[c := v]) + (if f[c] == 0 then 1 else 0) == Free(f) + (if v == 0 then 1 else 0)
  {
    FreeUpdateBelow(f, c, v, |f|);
  }

  lemma {:induction false} FreeBound(f: seq<nat>, k: nat)
    requires 2 <= k <= |f|
    ensures FreeBelow(f, k) <= k - 2
    ensures FreeBelow(f, k) == 0 <==> forall c :: 2 <= c < k ==> f[c] != 0
  {
    if k > 2 { FreeBound(f, k - 1); }
  }

  lemma Follower(f: seq<nat>, a: seq<nat>, i: nat)
    requires IsChain(f, a) && i < |a| - 1
    ensures f[a[i]] == a[i + 1] < |f|
  {
  }

  lemma ChainEntries(f: seq<nat>, a: seq<nat>)
    requires IsChain(f, a)
    ensures forall c :: c in a ==> 2 <= c < |f| && f[c] >= 2
  {
    forall c | c in a ensures 2 <= c < |f| && f[c] >= 2 {
      var i :| 0 <= i < |a| && a[i] == c;
      if i < |a| - 1 { assert f[a[i]] == a[i + 1]; }
    }
  }

  /** A free cluster is in no chain. */
  lemma FreeNotOwned(f: seq<nat>, a: seq<nat>, x: nat)
    requires IsChain(f, a) && x < |f| && f[x] == 0
    ensures x !in a
  {
    ChainEntries(f, a);
  }

  /** A chain keeps its shape when only entries outside it change. */
  lemma ChainFrame(f: seq<nat>, g: seq<nat>, a: seq<nat>)
    requires IsChain(f, a) && |g| == |f|
    requires forall c :: c in a ==> c < |g| && g[c] == f[c]
    ensures IsChain(g, a)
  {
    assert forall i :: 0 <= i < |a| ==> g[a[i]] == f[a[i]];
  }

  lemma CreateKeepsChain(f: seq<nat>, a: seq<nat>, x: nat, eoc: nat)
    requires IsChain(f, a) && 2 <= x < |f| && f[x] == 0
    ensures IsChain(f[x := eoc], a) && x !in a
  {
    FreeNotOwned(f, a, x);
    ChainFrame(f, f[x := eoc], a);
  }

  /** Starting a chain in a free cluster. */
  lemma CreateKeepsForest(f: seq<nat>, cs: set<seq<nat>>, x: nat, eoc: nat)
    requires Forest(f, cs) && 2 <= x < |f| && f[x] == 0 && eoc >= |f|
    ensures Forest(f[x := eoc], cs + {[x]})
  {
    var g, ds := f[x := eoc], cs + {[x]};
    forall a | a in ds ensures IsChain(g, a) {
      if a in cs { CreateKeepsChain(f, a, x, eoc); }
    }
    forall a, b | a in ds && b in ds && a != b ensures Disjoint(a, b) {
      if a in cs { CreateKeepsChain(f, a, x, eoc); }
      if b in cs { CreateKeepsChain(f, b, x, eoc); }
    }
    forall c: nat | 2 <= c < |g| && g[c] != 0 ensures Owned(ds, c) {
      if c == x { assert [x] in ds && c in [x]; }
      else { var a :| a in cs && c in a; assert a in ds; }
    }
  }

  /** The chain a with a free cluster appended. */
  lemma StretchChain(f: seq<nat>, a: seq<nat>, x: nat, eoc: nat)
    requires IsChain(f, a) && 2 <= x < |f| && f[x] == 0 && eoc >= |f|
    ensures x !in a && IsChain(f[x := eoc][a[|a| - 1] := x], a + [x])
  {
    FreeNotOwned(f, a, x);
    var last := a[|a| - 1];
    var g := f[x := eoc][last := x];
    assert g[last] == x && g[x] == eoc;
    assert forall i :: 0 <= i < |a| - 1 ==> g[a[i]] == a[i + 1];
  }

  lemma StretchOther(f: seq<nat>, a: seq<nat>, b: seq<nat>, x: nat, eoc: nat)
    requires IsChain(f, a) && IsChain(f, b) && Disjoint(a, b) && 2 <= x < |f| && f[x] == 0
    ensures IsChain(f[x := eoc][a[|a| - 1] := x], b)
    ensures Disjoint(b, a + [x]) && Disjoint(a + [x], b)
  {
    FreeNotOwned(f, b, x);
    assert a[|a| - 1] in a;
    ChainFrame(f, f[x := eoc][a[|a| - 1] := x], b);
  }

  /** Exchanging one chain of the family for another that stays clear of the rest. */
  lemma ReplaceInForest(f: seq<nat>, g: seq<nat>, cs: set<seq<nat>>, a: seq<nat>, a': seq<nat>)
    requires Forest(f, cs) && a in cs && |g| == |f| && IsChain(g, a')
    requires forall b :: b in cs && b != a ==> IsChain(g, b) && Disjoint(b, a') && Disjoint(a', b)
    requires forall c: nat :: 2 <= c < |g| && g[c] != 0 && c !in a' ==> f[c] != 0 && c !in a
    ensures Forest(g, cs - {a} + {a'})
  {
    hide IsChain, Disjoint;
    var ds := cs - {a} + {a'};
    forall c: nat | 2 <= c < |g| && g[c] != 0 ensures Owned(ds, c) {
      if c in a' { assert a' in ds; }
      else { var b :| b in cs && c in b; assert b in ds; }
    }
  }

  /** Appending a free cluster to one chain of the family. */
  lemma StretchKeepsForest(f: seq<nat>, cs: set<seq<nat>>, a: seq<nat>, x: nat, eoc: nat)
    requires Forest(f, cs) && a in cs && 2 <= x < |f| && f[x] == 0 && eoc >= |f|
    ensures Forest(f[x := eoc][a[|a| - 1] := x], cs - {a} + {a + [x]})
  {
    var g := f[x := eoc][a[|a| - 1] := x];
    StretchChain(f, a, x, eoc);
    forall b | b in cs && b != a ensures IsChain(g, b) && Disjoint(b, a + [x]) && Disjoint(a + [x], b) {
      StretchOther(f, a, b, x, eoc);
    }
    assert a[|a| - 1] in a;
    ReplaceInForest(f, g, cs, a, a + [x]);
  }

  /** Freeing one whole chain of the family. */
  lemma RemoveKeepsForest(f: seq<nat>, cs: set<seq<nat>>, a: seq<nat>)
    requires Forest(f, cs) && a in cs
    ensures Forest(Cleared(f, a), cs - {a})
  {
    var g, ds := Cleared(f, a), cs - {a};
    forall b | b in ds ensures IsChain(g, b) {
      assert Disjoint(b, a);
      ChainFrame(f, g, b);
    }
    forall c: nat | 2 <= c < |g| && g[c] != 0 ensures Owned(ds, c) {
      var b :| b in cs && c in b;
      assert b in ds;
    }
  }

  /** f_truncate's cut of chain a behind its first k clusters. */
  function CutAt(f: seq<nat>, a: seq<nat>, k: nat, eoc: nat): seq<nat>
    requires 0 < k < |a| && a[k - 1] < |f|
  {
    Cleared(f[a[k - 1] := eoc], a[k..])
  }

  lemma CutChain(f: seq<nat>, a: seq<nat>, k: nat, eoc: nat)
    requires IsChain(f, a) && 0 < k < |a| && eoc >= |f|
    ensures IsChain(CutAt(f, a, k, eoc), a[..k])
  {
    var g := CutAt(f, a, k, eoc);
    assert forall i :: 0 <= i < k ==> a[i] !in a[k..];
    assert forall i :: 0 <= i < k - 1 ==> g[a[i]] == a[i + 1];
    assert g[a[k - 1]] == eoc;
  }

  lemma CutOther(f: seq<nat>, a: seq<nat>, b: seq<nat>, k: nat, eoc: nat)
    requires IsChain(f, a) && IsChain(f, b) && Disjoint(b, a) && 0 < k < |a|
    ensures IsChain(CutAt(f, a, k, eoc), b)
    ensures Disjoint(b, a[..k]) && Disjoint(a[..k], b)
  {
    assert forall c :: c in a[..k] || c in a[k..] ==> c in a;
    assert a[k - 1] in a;
    ChainFrame(f, CutAt(f, a, k, eoc), b);
  }

  lemma CutResidue(f: seq<nat>, a: seq<nat>, k: nat, eoc: nat)
    requires IsChain(f, a) && 0 < k < |a|
    ensures var g := CutAt(f, a, k, eoc);
      forall c: nat :: 2 <= c < |g| && g[c] != 0 && c !in a[..k] ==> f[c] != 0 && c !in a
  {
    assert a == a[..k] + a[k..];
    assert a[k - 1] in a[..k];
  }

  lemma CutKeepsForest(f: seq<nat>, cs: set<seq<nat>>, a: seq<nat>, k: nat, eoc: nat)
    requires Forest(f, cs) && a in cs && 0 < k < |a| && eoc >= |f|
    ensures Forest(CutAt(f, a, k, eoc), cs - {a} + {a[..k]})
  {
    var g := CutAt(f, a, k, eoc);
    CutChain(f, a, k, eoc);
    forall b | b in cs && b != a ensures IsChain(g, b) && Disjoint(b, a[..k]) && Disjoint(a[..k], b) {
      CutOther(f, a, b, k, eoc);
    }
    CutResidue(f, a, k, eoc);
    ReplaceInForest(f, g, cs, a, a[..k]);
  }

  /** A tail of a chain is a chain once its head is known. */
  lemma TailIsChain(f: seq<nat>, a: seq<nat>, k: nat)
    requires IsChain(f, a) && k < |a|
    ensures IsChain(f, a[k..])
  {
    var b := a[k..];
    assert forall i :: 0 <= i < |b| - 1 ==> f[b[i]] == b[i + 1];
  }
}
