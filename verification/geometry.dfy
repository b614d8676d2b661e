/** The mounted volume's layout: the fields of FATFS that chk_mounted fills once
    and nothing changes afterwards, and the sector and cluster arithmetic on them. */
module Layout {

  type byte = x: int | 0 <= x < 256
  const SS: nat := 512                 // sector size
  const SZ_DIR: nat := 32              // directory entry size
  const DWORDS: nat := 0x1_0000_0000   // number of DWORD values
  type Sector = s: seq<byte> | |s| == SS witness seq(SS, _ => 0)

  /** n blocks of k units. Kept as a sum so that the layout's arithmetic stays linear. */
  function Span(n: nat, k: nat): nat {
    if n == 0 then 0 else Span(n - 1, k) + k
  }

  lemma {:induction false} SpanIsProduct(n: nat, k: nat)
    ensures Span(n, k) == n * k
  {
    if n != 0 { SpanIsProduct(n - 1, k); }
  }

  lemma {:induction false} SpanOrder(m: nat, n: nat, k: nat)
    requires m < n
    ensures Span(m, k) + k <= Span(n, k)
  {
    if m + 1 < n { SpanOrder(m, n - 1, k); }
  }

  const MIN_FAT16: nat := 4086
  const MIN_FAT32: nat := 65526

  datatype FatType = FAT12 | FAT16 | FAT32 {
    /** Entry values are stored modulo this. */
    function Modulus(): (m: nat) {
      match this
      case FAT12 => 0x1000
      case FAT16 => 0x1_0000
      case FAT32 => 0x1000_0000
    }

    /** Bytes of table needed for n entries. */
    function TableBytes(n: nat): nat {
      match this
      case FAT12 => n * 3 / 2 + n % 2
      case FAT16 => n * 2
      case FAT32 => n * 4
    }
  }

  datatype Geometry = Geometry(
    fsType: FatType,
    csize: nat,       // sectors per cluster
    nFats: nat,       // FAT copies
    nRootdir: nat,    // entries of the static root table (FAT12/16)
    nFatent: nat,     // FAT entries = clusters + 2
    fsize: nat,       // sectors per FAT copy
    fatbase: nat,     // first FAT sector
    dirbase: nat,     // root: first sector (FAT12/16) or first cluster (FAT32)
    database: nat,    // first data sector
    fsiSector: nat    // FSInfo sector (FAT32)
  ) {

    predicate Valid() {
      && csize in {1, 2, 4, 8, 16, 32, 64, 128}
      && 1 <= nFats <= 2
      && 1 <= fatbase
      && nRootdir % (SS / SZ_DIR) == 0 && nRootdir < 0x1_0000
      && 3 <= nFatent
      && fsType.TableBytes(nFatent) <= fsize * SS
      && database == RootBase() + nRootdir / (SS / SZ_DIR)
      && End() <= DWORDS
      && match fsType {
        case FAT12 => nFatent < MIN_FAT16 + 2 && dirbase == RootBase() && nRootdir > 0
        case FAT16 => nFatent < MIN_FAT32 + 2 && dirbase == RootBase() && nRootdir > 0
        case FAT32 => nFatent < 0x1000_0000 && nRootdir == 0 && 0 < fsiSector < fatbase
      }
    }

    /** First sector after all FAT copies. */
    function RootBase(): nat { fatbase + (if nFats == 2 then fsize + fsize else fsize) }

    /** First sector after the data area. */
    function End(): nat
      requires nFatent >= 2
    {
      database + Span(nFatent - 2, csize)
    }

    predicate Cluster(c: nat) { 2 <= c < nFatent }

    /** The sectors of one cluster, for a valid cluster number. */
    function Base(c: nat): nat
      requires Cluster(c)
    {
      database + Span(c - 2, csize)
    }

    predicate InCluster(c: nat, s: nat)
      requires Cluster(c)
    {
      Base(c) <= s < Base(c) + csize
    }

    /** s is in none of the FAT copies. */
    predicate Elsewhere(s: nat) { s < fatbase || RootBase() <= s }

    predicate InFat(s: nat) { fatbase <= s < fatbase + fsize }

    /** Sectors the window may hold modified: the first FAT copy, the static root, the data. */
    predicate Primary(s: nat) { InFat(s) || RootBase() <= s }
  }

  lemma ClusterOrder(g: Geometry, c: nat, d: nat)
    requires g.Valid() && g.Cluster(c) && g.Cluster(d) && c < d
    ensures g.Base(c) + g.csize <= g.Base(d)
  {
    SpanOrder(c - 2, d - 2, g.csize);
  }

  lemma BaseInside(g: Geometry, c: nat)
    requires g.Valid() && g.Cluster(c)
    ensures g.database <= g.Base(c) && g.Base(c) + g.csize <= g.End()
  {
    SpanOrder(c - 2, g.nFatent - 2, g.csize);
  }

  lemma InClusterInside(g: Geometry, c: nat, s: nat)
    requires g.Valid() && g.Cluster(c) && g.InCluster(c, s)
    ensures g.database <= s < g.End()
  {
    BaseInside(g, c);
  }

  lemma RootPositive(g: Geometry)
    requires g.Valid()
    ensures g.RootBase() > 0
  {
  }

  lemma SmallMod(x: nat)
    requires x < DWORDS
    ensures x % DWORDS == x
  {
  }

  /** clust2sect: a cluster number gives the first of its in-volume sectors, any other
      number gives 0. The DWORD subtraction wraps for 0 and 1, so they fail the same test. */
  method Clust2Sect(g: Geometry, clst: nat) returns (s: nat)
    requires g.Valid() && clst < DWORDS
    ensures s == if g.Cluster(clst) then g.Base(clst) else 0
    ensures g.Cluster(clst) ==> 0 < s && s + g.csize <= g.End()
  {
    var c := (clst + DWORDS - 2) % DWORDS;
    assert c == if clst < 2 then clst + DWORDS - 2 else clst - 2;
    if c >= g.nFatent - 2 {
      return 0;
    }
    BaseInside(g, clst);
    SpanIsProduct(c, g.csize);
    SmallMod(Span(c, g.csize) + g.database);
    s := (c * g.csize + g.database) % DWORDS;
  }

  /** Distinct clusters own disjoint sector ranges, and both lie in the data area. */
  lemma ClustersDisjoint(g: Geometry, c: nat, d: nat, s: nat)
    requires g.Valid() && g.Cluster(c) && g.Cluster(d)
    requires g.InCluster(c, s) && g.InCluster(d, s)
    ensures c == d && g.database <= s < g.End()
  {
    BaseInside(g, c);
    if c < d { ClusterOrder(g, c, d); }
    if d < c { ClusterOrder(g, d, c); }
  }
}
