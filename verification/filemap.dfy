/** Where the bytes of a file lie: the sectors of its cluster chain in order, and the
    bytes those sectors hold. */
module FileMap {
  import opened Layout
  import opened Bits

  /** All numbers in ch are clusters of the volume. */
  predicate Clusters(g: Geometry, ch: seq<nat>) {
    forall i :: 0 <= i < |ch| ==> g.Cluster(ch[i])
  }

  /** The k sectors from b on. */
  function Run(b: nat, k: nat): (r: seq<nat>)
    ensures |r| == k && forall j :: 0 <= j < k ==> r[j] == b + j
  {
    seq(k, j requires 0 <= j => b + j)
  }

  /** The sectors of the chain's clusters, in file order. */
  function Sectors(g: Geometry, ch: seq<nat>): (ss: seq<nat>)
    requires Clusters(g, ch)
    ensures |ss| == Span(|ch|, g.csize)
  {
    if ch == [] then []
    else Sectors(g, ch[..|ch| - 1]) + Run(g.Base(ch[|ch| - 1]), g.csize)
  }

  /** Sector j of the k-th cluster. */
  lemma {:induction false} SectorAt(g: Geometry, ch: seq<nat>, k: nat, j: nat)
    requires Clusters(g, ch) && k < |ch| && j < g.csize
    ensures Span(k, g.csize) + j < |Sectors(g, ch)|
    ensures Sectors(g, ch)[Span(k, g.csize) + j] == g.Base(ch[k]) + j
    decreases |ch|
  {
    if k < |ch| - 1 {
      SectorAt(g, ch[..|ch| - 1], k, j);
    }
  }

  lemma SectorsAppend(g: Geometry, ch: seq<nat>, c: nat)
    requires Clusters(g, ch) && g.Cluster(c)
    ensures Clusters(g, ch + [c])
    ensures Sectors(g, ch + [c]) == Sectors(g, ch) + Run(g.Base(c), g.csize)
  {
    assert (ch + [c])[..|ch|] == ch;
  }

  /** Quotient and remainder by the cluster size, by repeated subtraction; in this form
      they do not drag nonlinear arithmetic into the proofs about files. */
  function Quot(q: nat, c: nat): nat
    requires c >= 1
  {
    if q < c then 0 else Quot(q - c, c) + 1
  }

  function Rem(q: nat, c: nat): (r: nat)
    requires c >= 1
    ensures r < c
  {
    if q < c then q else Rem(q - c, c)
  }

  lemma {:induction false} QuotRem(q: nat, c: nat)
    requires c >= 1
    ensures q == Span(Quot(q, c), c) + Rem(q, c)
    ensures Quot(q, c) == q / c && Rem(q, c) == q % c
  {
    if q < c {
      ModUnique(0, q, c);
    } else {
      QuotRem(q - c, c);
      SpanIsProduct(Quot(q, c), c);
      ModUnique(Quot(q, c), Rem(q, c), c);
    }
  }

  lemma QuotUnique(k: nat, j: nat, c: nat)
    requires j < c
    ensures Quot(Span(k, c) + j, c) == k && Rem(Span(k, c) + j, c) == j
  {
    QuotRem(Span(k, c) + j, c);
    SpanIsProduct(k, c);
    ModUnique(k, j, c);
  }

  /** Cluster index and offset in the cluster of the q-th sector of a file. */
  lemma Locate(g: Geometry, q: nat) returns (k: nat, j: nat)
    requires g.Valid()
    ensures k == Quot(q, g.csize) && j == Rem(q, g.csize) && j < g.csize
    ensures q == Span(k, g.csize) + j
  {
    k, j := Quot(q, g.csize), Rem(q, g.csize);
    QuotRem(q, g.csize);
  }

  lemma ClusterCount(g: Geometry, q: nat, n: nat)
    requires g.Valid()
    ensures q < Span(n, g.csize) <==> Quot(q, g.csize) < n
  {
    var k, j := Locate(g, q);
    if k < n { SpanOrder(k, n, g.csize); }
    if n < k { SpanOrder(n, k, g.csize); }
  }

  /** The q-th sector of the file, as clust2sect plus the offset in the cluster gives it. */
  lemma SectorOf(g: Geometry, ch: seq<nat>, q: nat)
    requires g.Valid() && Clusters(g, ch) && q < |Sectors(g, ch)|
    ensures Quot(q, g.csize) < |ch|
    ensures Sectors(g, ch)[q] == g.Base(ch[Quot(q, g.csize)]) + Rem(q, g.csize)
  {
    ClusterCount(g, q, |ch|);
    var k, j := Locate(g, q);
    SectorAt(g, ch, k, j);
  }

  /** Moving one sector on stays in the cluster or enters the next one. */
  lemma NextSector(g: Geometry, q: nat)
    requires g.Valid() && q > 0
    ensures Rem(q, g.csize) == 0 ==> Quot(q, g.csize) == Quot(q - 1, g.csize) + 1
    ensures Rem(q, g.csize) != 0 ==> Quot(q, g.csize) == Quot(q - 1, g.csize) && Rem(q, g.csize) == Rem(q - 1, g.csize) + 1
  {
    var k, j := Locate(g, q);
    if j == 0 {
      QuotUnique(k - 1, g.csize - 1, g.csize);
    } else {
      QuotUnique(k, j - 1, g.csize);
    }
  }

  /** The mask `& (csize - 1)` is the remainder. */
  lemma ClusterMask(g: Geometry, q: nat)
    requires g.Valid()
    ensures And(q, g.csize - 1) == Rem(q, g.csize)
  {
    Pow2Values();
    var k := match g.csize {
      case 1 => 0 case 2 => 1 case 4 => 2 case 8 => 3
      case 16 => 4 case 32 => 5 case 64 => 6 case _ => 7
    };
    assert g.csize == Pow2(k);
    AndMask(q, k);
    QuotRem(q, g.csize);
  }

  /** `q & (csize - 1)`: the offset of a file sector in its cluster. */
  method SectorInCluster(g: Geometry, q: nat) returns (csect: nat)
    requires g.Valid()
    ensures csect == Rem(q, g.csize)
  {
    ClusterMask(g, q);
    csect := And(q, g.csize - 1);
  }

  /** Every sector of the file lies in one of its clusters. */
  lemma SectorOwner(g: Geometry, ch: seq<nat>, q: nat)
    requires g.Valid() && Clusters(g, ch) && q < |Sectors(g, ch)|
    ensures Quot(q, g.csize) < |ch| && g.InCluster(ch[Quot(q, g.csize)], Sectors(g, ch)[q])
    ensures g.database <= Sectors(g, ch)[q] < g.End()
  {
    SectorOf(g, ch, q);
    var k, j := Locate(g, q);
    BaseInside(g, ch[Quot(q, g.csize)]);
  }

  /** Distinct file positions lie in distinct sectors. */
  lemma SectorsDistinct(g: Geometry, ch: seq<nat>, p: nat, q: nat)
    requires g.Valid() && Clusters(g, ch) && p < q < |Sectors(g, ch)|
    requires forall i, j :: 0 <= i < j < |ch| ==> ch[i] != ch[j]
    ensures Sectors(g, ch)[p] != Sectors(g, ch)[q]
  {
    SectorOf(g, ch, p);
    SectorOf(g, ch, q);
    SectorOwner(g, ch, p);
    SectorOwner(g, ch, q);
    var kp, jp := Locate(g, p);
    var kq, jq := Locate(g, q);
    if Sectors(g, ch)[p] == Sectors(g, ch)[q] {
      ClustersDisjoint(g, ch[kp], ch[kq], Sectors(g, ch)[p]);
    }
  }

  /** j sectors on, still in the same cluster. */
  lemma SameCluster(g: Geometry, q: nat, j: nat)
    requires g.Valid() && Rem(q, g.csize) + j < g.csize
    ensures Quot(q + j, g.csize) == Quot(q, g.csize) && Rem(q + j, g.csize) == Rem(q, g.csize) + j
  {
    var k, r := Locate(g, q);
    QuotUnique(k, r + j, g.csize);
  }

  /** Sectors of one cluster are consecutive. */
  lemma Consecutive(g: Geometry, ch: seq<nat>, q: nat, cc: nat)
    requires g.Valid() && Clusters(g, ch) && q < |Sectors(g, ch)| && Rem(q, g.csize) + cc <= g.csize
    ensures q + cc <= |Sectors(g, ch)|
    ensures forall j :: q <= j < q + cc ==> Sectors(g, ch)[j] == Sectors(g, ch)[q] + (j - q)
  {
    SectorOf(g, ch, q);
    forall j | q <= j < q + cc
      ensures j < |Sectors(g, ch)| && Sectors(g, ch)[j] == Sectors(g, ch)[q] + (j - q)
    {
      SameCluster(g, q, j - q);
      ClusterCount(g, j, |ch|);
      SectorOf(g, ch, j);
    }
    if cc > 0 { assert q + cc - 1 < |Sectors(g, ch)|; }
  }

  /** A longer chain has more sectors behind the same ones. */
  lemma {:induction false} SectorsPrefix(g: Geometry, ch: seq<nat>, ch': seq<nat>)
    requires Clusters(g, ch') && ch <= ch'
    ensures Clusters(g, ch) && Sectors(g, ch) <= Sectors(g, ch')
    decreases |ch'|
  {
    assert forall i :: 0 <= i < |ch| ==> ch[i] == ch'[i];
    if |ch| < |ch'| {
      SectorsPrefix(g, ch, ch'[..|ch'| - 1]);
    } else {
      assert ch == ch';
    }
  }
}
