/** The abstract file: the bytes of the chain's sectors, seen through the file's private
    sector buffer, and the facts that keep buffer, window and disk apart. */
module FileSpec {
  import opened Layout
  import opened Chains
  import opened FileMap

  ghost predicate OnDisk(d: seq<Sector>, ss: seq<nat>) {
    forall q :: 0 <= q < |ss| ==> ss[q] < |d|
  }

  ghost predicate Distinct(ss: seq<nat>) {
    forall p, q :: 0 <= p < q < |ss| ==> ss[p] != ss[q]
  }

  /** All bytes of the file's sectors, in file order. */
  ghost function Bytes(d: seq<Sector>, ss: seq<nat>): (b: seq<byte>)
    requires OnDisk(d, ss)
    ensures |b| == |ss| * SS
    ensures forall i :: 0 <= i < |b| ==> b[i] == d[ss[i / SS]][i % SS]
  {
    seq(|ss| * SS, i requires 0 <= i < |ss| * SS => d[ss[i / SS]][i % SS])
  }

  /** The disk with the dirty private buffer laid over it. */
  ghost function Overlay(d: seq<Sector>, dsect: nat, dirty: bool, buf: seq<byte>): (v: seq<Sector>)
    requires |buf| == SS && (dirty ==> dsect < |d|)
    ensures |v| == |d|
  {
    if dirty then d[dsect := buf] else d
  }

  /** b' is b with data put at p, as far as position keep. */
  ghost predicate Written(b: seq<byte>, b': seq<byte>, p: nat, data: seq<byte>, keep: nat) {
    && |b| <= |b'| && p + |data| <= |b'|
    && (forall i :: 0 <= i < p && i < |b| ==> b'[i] == b[i])
    && (forall i :: 0 <= i < |data| ==> b'[p + i] == data[i])
    && (forall i :: p + |data| <= i < keep && i < |b| ==> b'[i] == b[i])
  }

  /** buf with data put at o. */
  function Splice(buf: seq<byte>, o: nat, data: seq<byte>): (r: seq<byte>)
    requires o + |data| <= |buf|
    ensures |r| == |buf|
    ensures forall i :: 0 <= i < |buf| ==> r[i] == if o <= i < o + |data| then data[i - o] else buf[i]
  {
    buf[..o] + data + buf[o + |data|..]
  }

  /** n bytes of src from p on were copied to dst at ofs, giving dst'. */
  ghost predicate Copied(dst: seq<byte>, dst': seq<byte>, ofs: nat, src: seq<byte>, p: nat, n: nat) {
    p + n <= |src| && ofs + n <= |dst| && dst' == Splice(dst, ofs, src[p..p + n])
  }

  /** Two adjoining copies are one. */
  lemma CopiedTwice(a: seq<byte>, b: seq<byte>, c: seq<byte>, ofs: nat, src: seq<byte>, p: nat, n: nat, m: nat)
    requires Copied(a, b, ofs, src, p, n) && Copied(b, c, ofs + n, src, p + n, m)
    ensures Copied(a, c, ofs, src, p, n + m)
  {
  }

  /** Replacing the sector at file position q replaces those bytes of the file. */
  lemma BytesUpdate(d: seq<Sector>, ss: seq<nat>, q: nat, s: Sector, i: nat)
    requires OnDisk(d, ss) && Distinct(ss) && q < |ss| && i < |ss| * SS
    ensures Bytes(d[ss[q] := s], ss)[i] == if i / SS == q then s[i % SS] else Bytes(d, ss)[i]
  {
    if i / SS < q { assert ss[i / SS] != ss[q]; }
    if i / SS > q { assert ss[q] != ss[i / SS]; }
  }

  /** A partial-sector write through the buffer. The buffer may hold anything behind
      the data if the whole rest of the sector lies behind `keep`. */
  lemma SpliceWritten(d: seq<Sector>, ss: seq<nat>, p: nat, buf: Sector, data: seq<byte>, keep: nat)
    requires OnDisk(d, ss) && Distinct(ss) && p / SS < |ss| && p % SS + |data| <= SS
    requires buf == d[ss[p / SS]] || (p % SS == 0 && keep <= p)
    ensures Written(Bytes(d, ss), Bytes(d[ss[p / SS] := Splice(buf, p % SS, data)], ss), p, data, keep)
  {
    var q := p / SS;
    var s: Sector := Splice(buf, p % SS, data);
    var b, b' := Bytes(d, ss), Bytes(d[ss[q] := s], ss);
    forall i | 0 <= i < |b| ensures b'[i] == if i / SS == q then s[i % SS] else b[i] {
      BytesUpdate(d, ss, q, s, i);
    }
    forall i | 0 <= i < |data| ensures b'[p + i] == data[i] {
      assert (p + i) / SS == q && (p + i) % SS == p % SS + i;
    }
    forall i | 0 <= i < |b| && (i < p || p + |data| <= i < keep) ensures b'[i] == b[i] {
      if i / SS == q { SpliceElsewhere(p, i, |data|); }
    }
  }

  lemma SpliceElsewhere(p: nat, i: nat, n: nat)
    requires (i < p || p + n <= i) && i / SS == p / SS
    ensures i % SS < p % SS || p % SS + n <= i % SS
  {
  }

  /** Sector s is in no free cluster and in no cluster of ch: what the window may show. */
  ghost predicate Away(g: Geometry, f: seq<nat>, ch: seq<nat>, s: nat) {
    forall c: nat :: g.Cluster(c) && c < |f| && g.InCluster(c, s) ==> f[c] != 0 && c !in ch
  }

  /** Sector s is in a free cluster or in one of ch: what the private buffer may hold. */
  ghost predicate Ours(g: Geometry, f: seq<nat>, ch: seq<nat>, s: nat) {
    exists c: nat :: g.Cluster(c) && c < |f| && g.InCluster(c, s) && (f[c] == 0 || c in ch)
  }

  lemma AwayFromOurs(g: Geometry, f: seq<nat>, ch: seq<nat>, s: nat, t: nat)
    requires Away(g, f, ch, s) && Ours(g, f, ch, t)
    ensures s != t
  {
  }

  lemma OursInData(g: Geometry, f: seq<nat>, ch: seq<nat>, t: nat)
    requires g.Valid() && Ours(g, f, ch, t)
    ensures g.database <= t < g.End()
  {
    var c: nat :| g.Cluster(c) && g.InCluster(c, t);
    InClusterInside(g, c, t);
  }

  lemma SystemAway(g: Geometry, f: seq<nat>, ch: seq<nat>, s: nat)
    requires g.Valid() && s < g.database
    ensures Away(g, f, ch, s)
  {
    forall c: nat | g.Cluster(c) ensures !g.InCluster(c, s) { BaseInside(g, c); }
  }

  lemma SectorIsOurs(g: Geometry, f: seq<nat>, ch: seq<nat>, q: nat)
    requires g.Valid() && |f| == g.nFatent && Clusters(g, ch) && q < |Sectors(g, ch)|
    ensures Ours(g, f, ch, Sectors(g, ch)[q])
  {
    SectorOwner(g, ch, q);
  }

  /** f' keeps the used entries of f used, except that cluster r may have joined ch. */
  lemma AwayStretch(g: Geometry, f: seq<nat>, f': seq<nat>, ch: seq<nat>, r: nat, s: nat)
    requires Away(g, f, ch, s) && |f'| == |f| && r < |f| && f[r] == 0
    requires forall c :: 0 <= c < |f| && f[c] != 0 ==> f'[c] != 0
    ensures Away(g, f', ch + [r], s)
  {
  }

  lemma OursStretch(g: Geometry, f: seq<nat>, f': seq<nat>, ch: seq<nat>, r: nat, s: nat)
    requires Ours(g, f, ch, s) && |f'| == |f|
    requires forall c :: 0 <= c < |f| && c != r && f[c] == 0 ==> f'[c] == 0
    ensures Ours(g, f', ch + [r], s)
  {
    var c: nat :| g.Cluster(c) && c < |f| && g.InCluster(c, s) && (f[c] == 0 || c in ch);
    assert f'[c] == 0 || c in ch + [r];
  }

  /** No FAT entry reads 1, the value get_fat reports an error with. */
  ghost predicate Healthy(f: seq<nat>) {
    forall c :: 2 <= c < |f| ==> f[c] != 1
  }

  /** ch is the chain that starts at sclust (none if 0). */
  ghost predicate ChainOf(f: seq<nat>, sclust: nat, ch: seq<nat>) {
    if sclust == 0 then ch == [] else IsChain(f, ch) && ch[0] == sclust
  }

  lemma ChainClusters(g: Geometry, f: seq<nat>, sclust: nat, ch: seq<nat>)
    requires ChainOf(f, sclust, ch) && |f| == g.nFatent
    ensures Clusters(g, ch)
    ensures forall i, j :: 0 <= i < j < |ch| ==> ch[i] != ch[j]
  {
  }

  lemma ChainSectors(g: Geometry, f: seq<nat>, sclust: nat, ch: seq<nat>, d: seq<Sector>)
    requires g.Valid() && ChainOf(f, sclust, ch) && |f| == g.nFatent && g.End() <= |d|
    ensures Clusters(g, ch) && OnDisk(d, Sectors(g, ch)) && Distinct(Sectors(g, ch))
  {
    ChainClusters(g, f, sclust, ch);
    var ss := Sectors(g, ch);
    forall q | 0 <= q < |ss| ensures ss[q] < |d| { SectorOwner(g, ch, q); }
    forall p, q | 0 <= p < q < |ss| ensures ss[p] != ss[q] { SectorsDistinct(g, ch, p, q); }
  }

  /** Cursor and size lie in the chain. */
  ghost predicate Positioned(g: Geometry, ch: seq<nat>, fptr: nat, size: nat) {
    && fptr <= Span(|ch|, g.csize) * SS && size <= Span(|ch|, g.csize) * SS
    && fptr < DWORDS && size < DWORDS
  }

  /** clust is the cluster of file byte i. */
  ghost predicate Holds(g: Geometry, ch: seq<nat>, i: nat, clust: nat) {
    g.csize > 0 && Quot(i / SS, g.csize) < |ch| && clust == ch[Quot(i / SS, g.csize)]
  }

  /** The private buffer holds sector dsect, and inside a sector it is the cursor's sector. */
  ghost predicate Buffered(g: Geometry, f: seq<nat>, ch: seq<nat>, d: seq<Sector>,
                           fptr: nat, dsect: nat, dirty: bool, buf: seq<byte>) {
    && |buf| == SS && Clusters(g, ch)
    && (dsect != 0 ==> Ours(g, f, ch, dsect) && dsect < |d|)
    && (dirty ==> dsect != 0 && dsect in Sectors(g, ch))
    && (!dirty && dsect != 0 ==> buf == d[dsect])
    && (fptr % SS != 0 ==> fptr / SS < |Sectors(g, ch)| && dsect == Sectors(g, ch)[fptr / SS])
  }

  /** Consecutive sectors as one run of bytes. */
  ghost function Flat(secs: seq<Sector>): (b: seq<byte>)
    ensures |b| == |secs| * SS
    ensures forall i :: 0 <= i < |b| ==> b[i] == secs[i / SS][i % SS]
  {
    seq(|secs| * SS, i requires 0 <= i < |secs| * SS => secs[i / SS][i % SS])
  }

  /** Copying one more sector behind j copied ones. */
  lemma SpliceFlatStep(x: seq<byte>, ofs: nat, secs: seq<Sector>, j: nat)
    requires j < |secs| && ofs + |secs| * SS <= |x|
    ensures Splice(Splice(x, ofs, Flat(secs[..j])), ofs + j * SS, secs[j]) == Splice(x, ofs, Flat(secs[..j + 1]))
  {
    var a := Splice(Splice(x, ofs, Flat(secs[..j])), ofs + j * SS, secs[j]);
    var b := Splice(x, ofs, Flat(secs[..j + 1]));
    forall i | 0 <= i < |x| ensures a[i] == b[i] {
      if ofs + j * SS <= i < ofs + j * SS + SS {
        ModSS(j, i - ofs - j * SS);
      }
    }
  }

  lemma ModSS(j: nat, r: nat)
    requires r < SS
    ensures (j * SS + r) / SS == j && (j * SS + r) % SS == r
  {
  }

  /** Laying a buffer over one of the copied sectors. */
  lemma SpliceFlatPatch(x: seq<byte>, ofs: nat, secs: seq<Sector>, j: nat, s: Sector)
    requires j < |secs| && ofs + |secs| * SS <= |x|
    ensures Splice(Splice(x, ofs, Flat(secs)), ofs + j * SS, s) == Splice(x, ofs, Flat(secs[j := s]))
  {
    var a := Splice(Splice(x, ofs, Flat(secs)), ofs + j * SS, s);
    var b := Splice(x, ofs, Flat(secs[j := s]));
    forall i | 0 <= i < |x| ensures a[i] == b[i] {
      if ofs <= i < ofs + |secs| * SS {
        PatchAt(secs, j, s, i - ofs);
      }
    }
  }

  lemma PatchAt(secs: seq<Sector>, j: nat, s: Sector, i: nat)
    requires j < |secs| && i < |secs| * SS
    ensures Flat(secs[j := s])[i] == if j * SS <= i < j * SS + SS then s[i - j * SS] else Flat(secs)[i]
  {
    if j * SS <= i < j * SS + SS {
      ModSS(j, i - j * SS);
    } else {
      assert i / SS != j;
    }
  }

  /** cc sectors from file sector q on, when they are consecutive on disk. */
  lemma FlatBytes(d: seq<Sector>, ss: seq<nat>, q: nat, cc: nat, sect: nat)
    requires OnDisk(d, ss) && q + cc <= |ss| && sect + cc <= |d|
    requires forall j :: q <= j < q + cc ==> ss[j] == sect + (j - q)
    ensures Flat(d[sect..sect + cc]) == Bytes(d, ss)[q * SS..(q + cc) * SS]
  {
    var a, b := Flat(d[sect..sect + cc]), Bytes(d, ss)[q * SS..(q + cc) * SS];
    forall i | 0 <= i < cc * SS ensures a[i] == b[i] {
      assert (q * SS + i) / SS == q + i / SS && (q * SS + i) % SS == i % SS;
      assert ss[q + i / SS] == sect + i / SS;
    }
  }

  /** d with the sectors from sect on replaced. */
  function PutRun(d: seq<Sector>, sect: nat, secs: seq<Sector>): (e: seq<Sector>)
    requires sect + |secs| <= |d|
    ensures |e| == |d|
    ensures forall s :: 0 <= s < |d| ==> e[s] == if sect <= s < sect + |secs| then secs[s - sect] else d[s]
  {
    d[..sect] + secs + d[sect + |secs|..]
  }

  /** data is cc whole sectors. */
  predicate IsWhole(data: seq<byte>, cc: nat) {
    |data| == cc * SS
  }

  /** The j-th whole sector of data. */
  function Chunk(data: seq<byte>, cc: nat, j: nat): (s: Sector)
    requires IsWhole(data, cc) && j < cc
    ensures s == data[j * SS..(j + 1) * SS]
  {
    data[j * SS..(j + 1) * SS]
  }

  /** data cut into whole sectors. */
  function Chunks(data: seq<byte>, cc: nat): (secs: seq<Sector>)
    requires IsWhole(data, cc)
    ensures |secs| == cc
    ensures forall j :: 0 <= j < cc ==> secs[j] == Chunk(data, cc, j)
  {
    seq(cc, j requires 0 <= j < cc => Chunk(data, cc, j))
  }

  lemma ChunkByte(data: seq<byte>, cc: nat, i: nat)
    requires IsWhole(data, cc) && i < |data|
    ensures i / SS < cc && Chunks(data, cc)[i / SS][i % SS] == data[i]
  {
    assert Chunks(data, cc)[i / SS] == Chunk(data, cc, i / SS);
  }

  /** A direct write of whole sectors into a consecutive run of the file. */
  lemma RunWritten(d: seq<Sector>, ss: seq<nat>, q: nat, sect: nat, data: seq<byte>, cc: nat, keep: nat)
    requires OnDisk(d, ss) && Distinct(ss) && IsWhole(data, cc) && q + cc <= |ss| && sect + cc <= |d|
    requires forall j :: q <= j < q + cc ==> ss[j] == sect + (j - q)
    ensures Written(Bytes(d, ss), Bytes(PutRun(d, sect, Chunks(data, cc)), ss), q * SS, data, keep)
  {
    var b, b' := Bytes(d, ss), Bytes(PutRun(d, sect, Chunks(data, cc)), ss);
    forall i | 0 <= i < |data| ensures b'[q * SS + i] == data[i] {
      ChunkByte(data, cc, i);
      RunByte(q, i);
      assert ss[q + i / SS] == sect + (q + i / SS - q);
    }
    forall i | 0 <= i < |b| && !(q * SS <= i < q * SS + |data|) ensures b'[i] == b[i] {
      RunElsewhere(ss, q, cc, sect, i / SS);
    }
  }

  lemma RunByte(q: nat, i: nat)
    ensures (q * SS + i) / SS == q + i / SS && (q * SS + i) % SS == i % SS
  {
  }

  lemma RunElsewhere(ss: seq<nat>, q: nat, cc: nat, sect: nat, k: nat)
    requires Distinct(ss) && q + cc <= |ss| && k < |ss| && !(q <= k < q + cc)
    requires forall j :: q <= j < q + cc ==> ss[j] == sect + (j - q)
    ensures !(sect <= ss[k] < sect + cc)
  {
    if sect <= ss[k] < sect + cc {
      RunIndex(ss, q, cc, sect, ss[k]);
    }
  }

  lemma RunIndex(ss: seq<nat>, q: nat, cc: nat, sect: nat, s: nat)
    requires q + cc <= |ss| && sect <= s < sect + cc
    requires forall j :: q <= j < q + cc ==> ss[j] == sect + (j - q)
    ensures exists j :: q <= j < q + cc && ss[j] == s
  {
    assert ss[q + (s - sect)] == s;
  }
}
