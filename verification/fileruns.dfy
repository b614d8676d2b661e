/** Runs of calls on one open file, against a plain array of bytes with a cursor. */
module FileRuns {
  import opened Layout
  import opened ByteOrder
  import opened FatAccess
  import opened Chains
  import opened FileMap
  import opened DirEntry
  import opened FileSpec
  import opened OpenFile
  import opened FileGrow
  import opened FileRead
  import opened FileWrite
  import opened FileSeek
  import opened FileSync
  import opened FileTruncate

  datatype Op =
    | ReadOp(n: nat)
    | WriteOp(data: seq<byte>)
    | SeekOp(ofs: nat)
    | SyncOp(tim: nat)
    | TruncateOp(tim: nat)   // f_sync, then f_truncate

  /** An open file as its user sees it. */
  datatype State = State(bytes: seq<byte>, pos: nat)

  /** One call: what it returned, the state it left, and the medium and the clusters of the file at that time. */
  datatype Call = Call(op: Op, out: seq<byte>, after: State, medium: seq<Sector>, chain: seq<nat>)

  /** How long the file can get: the bytes of its clusters and of the free ones. No call changes it. */
  ghost function Cap(g: Geometry, f: seq<nat>, ch: seq<nat>): nat {
    Span(|ch| + Free(f), g.csize) * SS
  }

  lemma CapFacts(g: Geometry, f: seq<nat>, ch: seq<nat>)
    ensures Span(|ch|, g.csize) * SS <= Cap(g, f, ch)
    ensures Free(f) == 0 ==> Cap(g, f, ch) == Span(|ch|, g.csize) * SS
  {
    if Free(f) > 0 { SpanOrder(|ch|, |ch| + Free(f), g.csize); }
  }

  lemma CapKept(g: Geometry, f: seq<nat>, sclust: nat, ch: seq<nat>, f': seq<nat>, sclust': nat, ch': seq<nat>)
    requires ChainOf(f, sclust, ch) && ChainOf(f', sclust', ch') && Reclaimed(f, ch, f', ch')
    ensures Cap(g, f', ch') == Cap(g, f, ch)
  {
    Conserved(f, sclust, ch, f', sclust', ch');
  }

  function Min(a: nat, b: nat): nat { if a < b then a else b }

  /** The call, as it left the file. */
  ghost function Done(fp: File, op: Op, out: seq<byte>): Call
    requires fp.Core()
    reads fp, fp.buf, fp.fs, fp.fs.win
  {
    Call(op, out, State(fp.Contents(), fp.fptr), fp.fs.disk, fp.chain)
  }

  lemma DoneIs(fp: File, op: Op, out: seq<byte>)
    requires fp.Core()
    ensures Done(fp, op, out) == Call(op, out, State(fp.Contents(), fp.fptr), fp.fs.disk, fp.chain)
  {
  }

  /** Arguments are machine words. */
  predicate Words(op: Op) {
    match op
    case ReadOp(n) => n < DWORDS
    case WriteOp(data) => |data| < DWORDS
    case SeekOp(ofs) => ofs < DWORDS
    case SyncOp(tim) => tim < DWORDS
    case TruncateOp(tim) => tim < DWORDS
  }

  /** The array semantics of each call, for a file that can get cap bytes long: a write is short, and a seek stops early,
      exactly where these bytes end. */
  ghost predicate Follows(canRead: bool, canWrite: bool, cap: nat, s: State, c: Call) {
    var t := c.after;
    s.pos <= |s.bytes| && t.pos <= |t.bytes| && (!c.op.ReadOp? ==> c.out == []) &&
    match c.op
    case ReadOp(n) =>
      && t.bytes == s.bytes && s.pos + |c.out| == t.pos && c.out == s.bytes[s.pos..t.pos]
      && |c.out| == (if !canRead then 0 else if n < |s.bytes| - s.pos then n else |s.bytes| - s.pos)
    case WriteOp(data) =>
      && t.pos == (if !canWrite || |s.bytes| + |data| >= 0x1_0000_0000 then s.pos else Min(s.pos + |data|, cap))
      && s.pos <= t.pos && t.bytes == Overwrite(s.bytes, s.pos, data[..t.pos - s.pos])
    case SeekOp(ofs) =>
      && s.bytes <= t.bytes && |t.bytes| == (if t.pos > |s.bytes| then t.pos else |s.bytes|)
      && t.pos == Min(ofs, if canWrite then cap else |s.bytes|)
    case SyncOp(_) => t == s
    case TruncateOp(_) => t == if canWrite then State(s.bytes[..s.pos], s.pos) else s
  }

  /** Every call follows from the state before it. */
  ghost predicate Trace(canRead: bool, canWrite: bool, cap: nat, s: State, cs: seq<Call>) {
    cs != [] ==> Trace(canRead, canWrite, cap, s, cs[..|cs| - 1]) && Follows(canRead, canWrite, cap, Last(s, cs[..|cs| - 1]), cs[|cs| - 1])
  }

  ghost function Last(s: State, cs: seq<Call>): State {
    if cs == [] then s else cs[|cs| - 1].after
  }

  /** y is the sector x, or, where the directory entry at o was stamped, x outside of bytes 11 and 20..31 of it. */
  ghost predicate Kept(x: Sector, y: Sector, stamped: bool, o: nat) {
    y == x || (stamped && EntryOnly(x, y, o))
  }

  /** Neither the FAT entries nor the sectors of clusters that were in use by others have changed, apart from these
      bytes of the directory entry at offset o of sector dir; no cluster is lost. */
  ghost predicate Spared(g: Geometry, f: seq<nat>, ch: seq<nat>, v: seq<Sector>,
                         f': seq<nat>, ch': seq<nat>, v': seq<Sector>, dir: nat, o: nat) {
    && Reclaimed(f, ch, f', ch') && |v'| == |v|
    && (forall s :: 0 <= s < |v| && Foreign(g, f, ch, s) ==> Kept(v[s], v'[s], s == dir, o))
  }

  /** Sector s is in no FAT copy, in no free cluster and in none of ch, and is not the FSInfo sector. */
  ghost predicate Foreign(g: Geometry, f: seq<nat>, ch: seq<nat>, s: nat) {
    g.Elsewhere(s) && !Ours(g, f, ch, s) && !(g.fsType == FAT32 && s == g.fsiSector)
  }

  lemma OursBefore(g: Geometry, f: seq<nat>, ch: seq<nat>, f': seq<nat>, ch': seq<nat>, s: nat)
    requires Reclaimed(f, ch, f', ch') && Ours(g, f', ch', s)
    ensures Ours(g, f, ch, s)
  {
    var c: nat :| g.Cluster(c) && c < |f'| && g.InCluster(c, s) && (f'[c] == 0 || c in ch');
    assert f[c] == 0 || c in ch;
  }

  lemma SparedRefl(g: Geometry, f: seq<nat>, ch: seq<nat>, v: seq<Sector>, dir: nat, o: nat)
    ensures Spared(g, f, ch, v, f, ch, v, dir, o)
  {
  }

  lemma KeptTrans(x: Sector, y: Sector, z: Sector, stamped: bool, o: nat)
    requires Kept(x, y, stamped, o) && Kept(y, z, stamped, o)
    ensures Kept(x, z, stamped, o)
  {
    if y != x && z != y { EntryOnlyTrans(x, y, z, o); }
  }

  lemma SparedTrans(g: Geometry, f: seq<nat>, ch: seq<nat>, v: seq<Sector>, f1: seq<nat>, ch1: seq<nat>, v1: seq<Sector>,
                    f2: seq<nat>, ch2: seq<nat>, v2: seq<Sector>, dir: nat, o: nat)
    requires Spared(g, f, ch, v, f1, ch1, v1, dir, o) && Spared(g, f1, ch1, v1, f2, ch2, v2, dir, o)
    ensures Spared(g, f, ch, v, f2, ch2, v2, dir, o)
  {
    ReclaimedTrans(f, ch, f1, ch1, f2, ch2);
    hide Reclaimed;
    forall s | 0 <= s < |v| && Foreign(g, f, ch, s) ensures Kept(v[s], v2[s], s == dir, o) {
      if Ours(g, f1, ch1, s) { OursBefore(g, f, ch, f1, ch1, s); }
      KeptTrans(v[s], v1[s], v2[s], s == dir, o);
    }
  }

  /** f_write and f_lseek spare the others. */
  lemma SparedByWrite(g: Geometry, f: seq<nat>, ch: seq<nat>, v: seq<Sector>,
                      f': seq<nat>, ch': seq<nat>, v': seq<Sector>, dir: nat, o: nat)
    requires g.Valid() && |f| == g.nFatent && Stretched(f, ch, f', ch') && Outside(g, ch', v, v')
    ensures Spared(g, f, ch, v, f', ch', v', dir, o)
  {
    forall s | 0 <= s < |v| && Foreign(g, f, ch, s) ensures v'[s] == v[s] {
      if s in Sectors(g, ch') {
        var q :| 0 <= q < |Sectors(g, ch')| && Sectors(g, ch')[q] == s;
        SectorIsOurs(g, f', ch', q);
        OursBefore(g, f, ch, f', ch', s);
      }
    }
  }

  lemma SparedBySeek(g: Geometry, f: seq<nat>, ch: seq<nat>, v: seq<Sector>,
                     f': seq<nat>, ch': seq<nat>, v': seq<Sector>, dir: nat, o: nat)
    requires Stretched(f, ch, f', ch') && SameData(g, v, v')
    ensures Spared(g, f, ch, v, f', ch', v', dir, o)
  {
  }

  lemma SparedBySync(g: Geometry, f: seq<nat>, ch: seq<nat>, v: seq<Sector>, v': seq<Sector>, dir: nat, o: nat)
    requires g.Valid() && OnlyEntry(g, v, v', dir) && dir < |v| && EntryOnly(v[dir], v'[dir], o)
    ensures Spared(g, f, ch, v, f, ch, v', dir, o)
  {
  }

  lemma SparedByTruncate(g: Geometry, f: seq<nat>, ch: seq<nat>, v: seq<Sector>,
                         f': seq<nat>, k: nat, v': seq<Sector>, dir: nat, o: nat)
    requires CutTo(g, f, f', ch, k) && SameData(g, v, v')
    requires k > 0 && k < |ch| ==> ch[k - 1] in ch
    ensures Spared(g, f, ch, v, f', ch[..k], v', dir, o)
  {
    assert ch == ch[..k] + ch[k..];
  }

  lemma SparedFacts(g: Geometry, f: seq<nat>, ch: seq<nat>, v: seq<Sector>,
                    f': seq<nat>, ch': seq<nat>, v': seq<Sector>, dir: nat, o: nat)
    requires Spared(g, f, ch, v, f', ch', v', dir, o)
    ensures Reclaimed(f, ch, f', ch')
  {
  }

  /** Another file keeps its chain and all its bytes. */
  lemma OtherFile(g: Geometry, f: seq<nat>, ch: seq<nat>, v: seq<Sector>,
                  f': seq<nat>, ch': seq<nat>, v': seq<Sector>, dir: nat, o: nat, b: seq<nat>)
    requires g.Valid() && |f| == g.nFatent && g.End() <= |v| && Spared(g, f, ch, v, f', ch', v', dir, o)
    requires IsChain(f, b) && Disjoint(b, ch) && Clusters(g, b) && dir !in Sectors(g, b)
    ensures IsChain(f', b) && Disjoint(b, ch')
    ensures OnDisk(v, Sectors(g, b)) && OnDisk(v', Sectors(g, b))
    ensures Bytes(v', Sectors(g, b)) == Bytes(v, Sectors(g, b))
  {
    ChainEntries(f, b);
    assert forall i :: 0 <= i < |b| ==> b[i] in b && f'[b[i]] == f[b[i]];
    var ss := Sectors(g, b);
    forall q | 0 <= q < |ss| ensures g.RootBase() <= ss[q] < |v| && v'[ss[q]] == v[ss[q]] {
      OtherSector(g, f, ch, b, q);
    }
    var x, y := Bytes(v', ss), Bytes(v, ss);
    assert forall i :: 0 <= i < |x| ==> x[i] == v'[ss[i / SS]][i % SS] == y[i];
  }

  /** The bytes of an entry at o' of sector s' that is not the entry at o of sector s. */
  predicate OtherEntry(s: nat, o: nat, s': nat, o': nat) {
    s' != s || o' + 32 <= o || o + 32 <= o'
  }

  lemma EntryKept(x: Sector, y: Sector, stamped: bool, o: nat, o': nat)
    requires Kept(x, y, stamped, o) && o' + SZ_DIR <= SS && (stamped ==> o' + 32 <= o || o + 32 <= o')
    ensures y[o'..o' + 32] == x[o'..o' + 32]
    ensures LdSize(y, o') == LdSize(x, o') && LdClust(y, o') == LdClust(x, o')
  {
    hide LdDword, LdWord;
    assert forall i :: o' <= i < o' + 32 ==> y[i] == x[i];
    assert LdDword(y, o' + DIR_FILESIZE) == LdDword(x, o' + DIR_FILESIZE) by { DwordSame(x, y, o' + DIR_FILESIZE); }
    WordSame(x, y, o' + DIR_FSTCLUSHI);
    WordSame(x, y, o' + DIR_FSTCLUSLO);
  }

  /** Another file that the disk stores stays stored: its entry, its chain and all its bytes, also where the two entries
      share a sector. */
  lemma OtherStored(g: Geometry, ch: seq<nat>, v: seq<Sector>, ch': seq<nat>, v': seq<Sector>, dir: nat, o: nat,
                    s: nat, p: nat, b: seq<nat>, x: seq<byte>)
    requires Fits(g, v) && Fits(g, v') && Spared(g, Fat(g, v), ch, v, Fat(g, v'), ch', v', dir, o)
    requires Stored(g, v, s, p, b, x) && OtherEntry(dir, o, s, p) && g.RootBase() <= s && !Ours(g, Fat(g, v), ch, s)
    requires Disjoint(b, ch) && dir !in Sectors(g, b)
    ensures Stored(g, v', s, p, b, x) && v'[s][p..p + 32] == v[s][p..p + 32]
  {
    EntryKept(v[s], v'[s], s == dir, o, p);
    hide Fat, LdSize, LdClust, Ours, Kept;
    if b != [] {
      OtherFile(g, Fat(g, v), ch, v, Fat(g, v'), ch', v', dir, o, b);
    } else {
      assert Sectors(g, b) == [];
    }
  }

  /** The FAT is the same with and without the file's own buffer. */
  lemma ViewFat(fp: File)
    requires fp.Core()
    ensures Fits(fp.fs.geo, fp.View()) && fp.fat == Fat(fp.fs.geo, fp.View())
  {
    hide *;
    CoreFacts(fp);
    ViewIs(fp);
    if fp.dirty { BufferFat(fp.fs.geo, fp.fat, fp.chain, fp.log, fp.fptr, fp.dsect, fp.buf[..]); }
  }

  lemma BufferFat(g: Geometry, f: seq<nat>, ch: seq<nat>, d: seq<Sector>, p: nat, dsect: nat, buf: seq<byte>)
    requires Fits(g, d) && Buffered(g, f, ch, d, p, dsect, true, buf) && dsect < |d| && |buf| == SS
    ensures Fits(g, d[dsect := buf]) && Fat(g, d[dsect := buf]) == Fat(g, d)
  {
    OursInData(g, f, ch, dsect);
    FatKept(g, d, dsect, buf);
  }

  lemma OtherSector(g: Geometry, f: seq<nat>, ch: seq<nat>, b: seq<nat>, q: nat)
    requires g.Valid() && |f| == g.nFatent && IsChain(f, b) && Disjoint(b, ch) && Clusters(g, b) && q < |Sectors(g, b)|
    ensures !Ours(g, f, ch, Sectors(g, b)[q]) && g.RootBase() <= Sectors(g, b)[q] < g.End()
  {
    ChainEntries(f, b);
    var s := Sectors(g, b)[q];
    SectorOwner(g, b, q);
    SectorOf(g, b, q);
    var d := b[Quot(q, g.csize)];
    assert d in b;
    forall c: nat | g.Cluster(c) && c < |f| && g.InCluster(c, s) ensures f[c] != 0 && c !in ch {
      OwnerIs(g, b, q, c);
    }
  }

  lemma OwnerIs(g: Geometry, b: seq<nat>, q: nat, c: nat)
    requires g.Valid() && Clusters(g, b) && q < |Sectors(g, b)| && g.Cluster(c) && g.InCluster(c, Sectors(g, b)[q])
    ensures Quot(q, g.csize) < |b| && c == b[Quot(q, g.csize)]
  {
    SectorOf(g, b, q);
    QuotRem(q, g.csize);
    var d := b[Quot(q, g.csize)];
    assert g.Cluster(d) && g.InCluster(d, Sectors(g, b)[q]);
    ClustersDisjoint(g, c, d, Sectors(g, b)[q]);
  }

  lemma ReadFollows(canRead: bool, canWrite: bool, cap: nat, s: State, c: Call, x: seq<byte>, y: seq<byte>, n: nat)
    requires s.pos <= |s.bytes| && c.op == ReadOp(n) && |x| == n && c.after.bytes == s.bytes
    requires |c.out| == if !canRead then 0 else if n < |s.bytes| - s.pos then n else |s.bytes| - s.pos
    requires c.after.pos == s.pos + |c.out| && Copied(x, y, 0, s.bytes, s.pos, |c.out|) && c.out == y[..|c.out|]
    ensures Follows(canRead, canWrite, cap, s, c)
  {
  }

  lemma WholeArray(y: seq<byte>, b: seq<byte>, n: nat, x: seq<byte>, p: nat)
    requires Copied(x, y, 0, b, p, n)
    ensures n <= |y|
  {
  }

  /** What the medium stores while the file is not marked as written. */
  lemma StoredBefore(fp: File)
    requires fp.Core()
    ensures Durable(fp) && !fp.written ==> !fp.fs.wflag && Stored(fp.fs.geo, fp.View(), fp.dirSect, fp.dirOfs, fp.chain, fp.Contents())
  {
    hide *;
    DurableFacts(fp);
    if OnMedium(fp) { OnMediumFacts(fp); }
  }

  lemma StillDurable(fp: File)
    requires fp.Valid() && fp.Core()
    requires !fp.written ==> !fp.fs.wflag && Stored(fp.fs.geo, fp.View(), fp.dirSect, fp.dirOfs, fp.chain, fp.Contents())
    ensures Durable(fp)
  {
    hide *;
    DurableFacts(fp);
    if !fp.written { OnMediumWhen(fp); }
  }

  lemma SamePrefixBytes(a: seq<byte>, b: seq<byte>)
    requires a <= b && |b| == |a|
    ensures a == b
  {
  }

  method DoRead(fp: File, n: nat) returns (out: seq<byte>, ghost call: Call)
    requires fp.Valid() && !fp.failed
    modifies fp`fptr, fp`clust, fp`sclust, fp`chain, fp`fat, fp`log, fp`dirty, fp`dsect, fp.buf, fp`fsize, fp`written
    modifies fp.fs`disk, fp.fs`winsect, fp.fs`wflag, fp.fs`fsiFlag, fp.fs`lastClust, fp.fs`freeClust, fp.fs.win
    ensures fp.Valid() && fp.Core() && Follows(fp.canRead, fp.canWrite, Cap(fp.fs.geo, old(fp.fat), old(fp.chain)), State(old(fp.Contents()), old(fp.fptr)), call)
    ensures call == Done(fp, ReadOp(n), out) && (old(Durable(fp)) ==> Durable(fp))
    ensures Spared(fp.fs.geo, old(fp.fat), old(fp.chain), old(fp.View()), fp.fat, fp.chain, fp.View(), fp.dirSect, fp.dirOfs)
    ensures Cap(fp.fs.geo, fp.fat, fp.chain) == Cap(fp.fs.geo, old(fp.fat), old(fp.chain))
  {
    hide *;
    ValidFacts(fp);
    ghost var s, g, f, ch := State(fp.Contents(), fp.fptr), fp.fs.geo, fp.fat, fp.chain;
    StoredBefore(fp);
    var rbuff := new byte[n](_ => 0);
    ghost var x := rbuff[..];
    var res, br := Read(fp, rbuff, n);
    WholeArray(rbuff[..], s.bytes, br, x, s.pos);
    out := rbuff[..br];
    ValidFacts(fp);
    if old(Durable(fp)) { StillDurable(fp); }
    call := Done(fp, ReadOp(n), out);
    DoneIs(fp, ReadOp(n), out);
    ReadFollows(fp.canRead, fp.canWrite, Cap(g, f, ch), s, call, x, rbuff[..], n);
    SparedRefl(fp.fs.geo, fp.fat, fp.chain, fp.View(), fp.dirSect, fp.dirOfs);
  }

  lemma WriteFollows(canRead: bool, canWrite: bool, cap: nat, s: State, c: Call, data: seq<byte>, bw: nat)
    requires s.pos <= |s.bytes| && c.after.pos <= |c.after.bytes| && c.op == WriteOp(data) && c.out == [] && bw <= |data|
    requires c.after.pos == s.pos + bw
    requires c.after.bytes == Overwrite(s.bytes, s.pos, data[..bw])
    requires !canWrite || |s.bytes| + |data| >= DWORDS ==> bw == 0
    requires s.pos <= c.after.pos <= cap && (canWrite && |s.bytes| + |data| < DWORDS && bw < |data| ==> c.after.pos == cap)
    ensures Follows(canRead, canWrite, cap, s, c)
  {
  }

  method DoWrite(fp: File, data: seq<byte>) returns (ghost call: Call)
    requires fp.Valid() && !fp.failed && |data| < DWORDS
    modifies fp`fptr, fp`clust, fp`sclust, fp`chain, fp`fat, fp`log, fp`dirty, fp`dsect, fp.buf, fp`fsize, fp`written
    modifies fp.fs`disk, fp.fs`winsect, fp.fs`wflag, fp.fs`fsiFlag, fp.fs`lastClust, fp.fs`freeClust, fp.fs.win
    ensures fp.Valid() && fp.Core() && Follows(fp.canRead, fp.canWrite, Cap(fp.fs.geo, old(fp.fat), old(fp.chain)), State(old(fp.Contents()), old(fp.fptr)), call)
    ensures call == Done(fp, WriteOp(data), []) && (old(Durable(fp)) ==> Durable(fp))
    ensures Spared(fp.fs.geo, old(fp.fat), old(fp.chain), old(fp.View()), fp.fat, fp.chain, fp.View(), fp.dirSect, fp.dirOfs)
    ensures Cap(fp.fs.geo, fp.fat, fp.chain) == Cap(fp.fs.geo, old(fp.fat), old(fp.chain))
  {
    hide *;
    ValidFacts(fp);
    CoreFacts(fp);
    ghost var s, g, f, ch, v := State(fp.Contents(), fp.fptr), fp.fs.geo, fp.fat, fp.chain, fp.View();
    ghost var sclust := fp.sclust;
    var res, bw := Write(fp, data);
    ValidFacts(fp);
    CoreFacts(fp);
    WholeIs(fp);
    DurableFacts(fp);
    StretchedFacts(f, ch, fp.fat, fp.chain);
    CapKept(g, f, sclust, ch, fp.fat, fp.sclust, fp.chain);
    CapFacts(g, fp.fat, fp.chain);
    call := Done(fp, WriteOp(data), []);
    DoneIs(fp, WriteOp(data), []);
    WriteFollows(fp.canRead, fp.canWrite, Cap(g, f, ch), s, call, data, bw);
    SparedByWrite(g, f, ch, v, fp.fat, fp.chain, fp.View(), fp.dirSect, fp.dirOfs);
  }

  lemma SeekFollows(canRead: bool, canWrite: bool, cap: nat, s: State, c: Call, ofs: nat)
    requires s.pos <= |s.bytes| && c.after.pos <= |c.after.bytes| && c.op == SeekOp(ofs) && c.out == [] && s.bytes <= c.after.bytes
    requires |c.after.bytes| == if c.after.pos > |s.bytes| then c.after.pos else |s.bytes|
    requires canWrite ==> c.after.pos <= cap && (c.after.pos == ofs || (c.after.pos < ofs && c.after.pos == cap))
    requires !canWrite ==> c.after.pos == if ofs <= |s.bytes| then ofs else |s.bytes|
    ensures Follows(canRead, canWrite, cap, s, c)
  {
  }

  method DoSeek(fp: File, ofs: nat) returns (ghost call: Call)
    requires fp.Valid() && !fp.failed && ofs < DWORDS
    modifies fp`fptr, fp`clust, fp`sclust, fp`chain, fp`fat, fp`log, fp`dirty, fp`dsect, fp.buf, fp`fsize, fp`written
    modifies fp.fs`disk, fp.fs`winsect, fp.fs`wflag, fp.fs`fsiFlag, fp.fs`lastClust, fp.fs`freeClust, fp.fs.win
    ensures fp.Valid() && fp.Core() && Follows(fp.canRead, fp.canWrite, Cap(fp.fs.geo, old(fp.fat), old(fp.chain)), State(old(fp.Contents()), old(fp.fptr)), call)
    ensures call == Done(fp, SeekOp(ofs), []) && (old(Durable(fp)) ==> Durable(fp))
    ensures Spared(fp.fs.geo, old(fp.fat), old(fp.chain), old(fp.View()), fp.fat, fp.chain, fp.View(), fp.dirSect, fp.dirOfs)
    ensures Cap(fp.fs.geo, fp.fat, fp.chain) == Cap(fp.fs.geo, old(fp.fat), old(fp.chain))
  {
    hide *;
    ValidFacts(fp);
    CoreFacts(fp);
    ghost var sclust := fp.sclust;
    ghost var s, g, f, ch, v := State(fp.Contents(), fp.fptr), fp.fs.geo, fp.fat, fp.chain, fp.View();
    StoredBefore(fp);
    var res := Seek(fp, ofs);
    ValidFacts(fp);
    CoreFacts(fp);
    WholeIs(fp);
    StretchedFacts(f, ch, fp.fat, fp.chain);
    CapKept(g, f, sclust, ch, fp.fat, fp.sclust, fp.chain);
    CapFacts(g, fp.fat, fp.chain);
    if old(Durable(fp)) && !fp.written { SamePrefixBytes(s.bytes, fp.Contents()); }
    if old(Durable(fp)) { StillDurable(fp); }
    call := Done(fp, SeekOp(ofs), []);
    DoneIs(fp, SeekOp(ofs), []);
    SeekFollows(fp.canRead, fp.canWrite, Cap(g, f, ch), s, call, ofs);
    SparedBySeek(g, f, ch, v, fp.fat, fp.chain, fp.View(), fp.dirSect, fp.dirOfs);
  }

  lemma SyncFollows(canRead: bool, canWrite: bool, cap: nat, s: State, c: Call, tim: nat)
    requires s.pos <= |s.bytes| && c.op == SyncOp(tim) && c.out == [] && c.after == s
    ensures Follows(canRead, canWrite, cap, s, c)
  {
  }

  method DoSync(fp: File, tim: nat) returns (ghost call: Call)
    requires fp.Valid() && !fp.failed && tim < DWORDS
    modifies fp`fptr, fp`clust, fp`sclust, fp`chain, fp`fat, fp`log, fp`dirty, fp`dsect, fp.buf, fp`fsize, fp`written
    modifies fp.fs`disk, fp.fs`winsect, fp.fs`wflag, fp.fs`fsiFlag, fp.fs`lastClust, fp.fs`freeClust, fp.fs.win
    ensures fp.Valid() && fp.Core() && Follows(fp.canRead, fp.canWrite, Cap(fp.fs.geo, old(fp.fat), old(fp.chain)), State(old(fp.Contents()), old(fp.fptr)), call)
    ensures call == Done(fp, SyncOp(tim), []) && (old(Durable(fp)) ==> Durable(fp) && OnMedium(fp))
    ensures Spared(fp.fs.geo, old(fp.fat), old(fp.chain), old(fp.View()), fp.fat, fp.chain, fp.View(), fp.dirSect, fp.dirOfs)
    ensures Cap(fp.fs.geo, fp.fat, fp.chain) == Cap(fp.fs.geo, old(fp.fat), old(fp.chain))
  {
    hide *;
    ValidFacts(fp);
    CoreFacts(fp);
    ghost var s, g, f, ch, v := State(fp.Contents(), fp.fptr), fp.fs.geo, fp.fat, fp.chain, fp.View();
    Sync(fp, tim);
    ValidFacts(fp);
    DurableFacts(fp);
    call := Done(fp, SyncOp(tim), []);
    DoneIs(fp, SyncOp(tim), []);
    SyncFollows(fp.canRead, fp.canWrite, Cap(g, f, ch), s, call, tim);
    SparedBySync(g, f, ch, v, fp.View(), fp.dirSect, fp.dirOfs);
  }

  lemma TruncateFollows(canRead: bool, canWrite: bool, cap: nat, s: State, c: Call, tim: nat)
    requires s.pos <= |s.bytes| && c.op == TruncateOp(tim) && c.out == []
    requires c.after == if canWrite then State(s.bytes[..s.pos], s.pos) else s
    ensures Follows(canRead, canWrite, cap, s, c)
  {
  }

  lemma CutMember(ch: seq<nat>, k: nat)
    ensures 0 < k < |ch| ==> ch[k - 1] in ch
  {
  }

  /** f_truncate with a clean buffer. */
  method DoCut(fp: File)
    requires fp.Valid() && !fp.failed && !fp.dirty
    modifies fp`sclust, fp`chain, fp`fat, fp`log, fp`fsize, fp`written
    modifies fp.fs`disk, fp.fs`winsect, fp.fs`wflag, fp.fs`fsiFlag, fp.fs`freeClust, fp.fs.win
    ensures fp.Valid() && fp.Core() && (old(Durable(fp)) ==> Durable(fp))
    ensures fp.Contents() == if fp.canWrite then old(fp.Contents())[..fp.fptr] else old(fp.Contents())
    ensures Spared(fp.fs.geo, old(fp.fat), old(fp.chain), old(fp.View()), fp.fat, fp.chain, fp.View(), fp.dirSect, fp.dirOfs)
    ensures Cap(fp.fs.geo, fp.fat, fp.chain) == Cap(fp.fs.geo, old(fp.fat), old(fp.chain))
  {
    hide *;
    ValidFacts(fp);
    SoundFacts(fp);
    CoreFacts(fp);
    ghost var sclust := fp.sclust;
    ghost var g, f, ch, v := fp.fs.geo, fp.fat, fp.chain, fp.View();
    KeepableWhen(g, f, fp.sclust, ch, fp.log, fp.fptr, fp.clust, fp.dsect, fp.dirty, fp.buf[..]);
    ghost var cut := fp.canWrite && fp.fsize > fp.fptr;
    var res := Truncate(fp);
    ValidFacts(fp);
    DurableFacts(fp);
    if cut {
      CutMember(ch, |fp.chain|);
      SparedByTruncate(g, f, ch, v, fp.fat, |fp.chain|, fp.View(), fp.dirSect, fp.dirOfs);
    } else {
      SparedRefl(g, f, ch, v, fp.dirSect, fp.dirOfs);
    }
    CoreFacts(fp);
    SparedFacts(g, f, ch, v, fp.fat, fp.chain, fp.View(), fp.dirSect, fp.dirOfs);
    CapKept(g, f, sclust, ch, fp.fat, fp.sclust, fp.chain);
  }

  method DoTruncate(fp: File, tim: nat) returns (ghost call: Call)
    requires fp.Valid() && !fp.failed && tim < DWORDS
    modifies fp`fptr, fp`clust, fp`sclust, fp`chain, fp`fat, fp`log, fp`dirty, fp`dsect, fp.buf, fp`fsize, fp`written
    modifies fp.fs`disk, fp.fs`winsect, fp.fs`wflag, fp.fs`fsiFlag, fp.fs`lastClust, fp.fs`freeClust, fp.fs.win
    ensures fp.Valid() && fp.Core() && Follows(fp.canRead, fp.canWrite, Cap(fp.fs.geo, old(fp.fat), old(fp.chain)), State(old(fp.Contents()), old(fp.fptr)), call)
    ensures call == Done(fp, TruncateOp(tim), []) && (old(Durable(fp)) ==> Durable(fp))
    ensures Spared(fp.fs.geo, old(fp.fat), old(fp.chain), old(fp.View()), fp.fat, fp.chain, fp.View(), fp.dirSect, fp.dirOfs)
    ensures Cap(fp.fs.geo, fp.fat, fp.chain) == Cap(fp.fs.geo, old(fp.fat), old(fp.chain))
  {
    hide *;
    ValidFacts(fp);
    CoreFacts(fp);
    ghost var s, g, f, ch, v := State(fp.Contents(), fp.fptr), fp.fs.geo, fp.fat, fp.chain, fp.View();
    Sync(fp, tim);
    ValidFacts(fp);
    CoreFacts(fp);
    DurableFacts(fp);
    ghost var v1 := fp.View();
    SparedBySync(g, f, ch, v, v1, fp.dirSect, fp.dirOfs);
    DoCut(fp);
    SparedTrans(g, f, ch, v, f, ch, v1, fp.fat, fp.chain, fp.View(), fp.dirSect, fp.dirOfs);
    call := Done(fp, TruncateOp(tim), []);
    DoneIs(fp, TruncateOp(tim), []);
    TruncateFollows(fp.canRead, fp.canWrite, Cap(g, f, ch), s, call, tim);
  }

  lemma WordsFacts(op: Op)
    requires Words(op)
    ensures op.WriteOp? ==> |op.data| < DWORDS
    ensures op.SeekOp? ==> op.ofs < DWORDS
    ensures op.SyncOp? || op.TruncateOp? ==> op.tim < DWORDS
  {
  }

  method Perform(fp: File, op: Op) returns (out: seq<byte>, ghost call: Call)
    requires fp.Valid() && !fp.failed && Words(op)
    modifies fp`fptr, fp`clust, fp`sclust, fp`chain, fp`fat, fp`log, fp`dirty, fp`dsect, fp.buf, fp`fsize, fp`written
    modifies fp.fs`disk, fp.fs`winsect, fp.fs`wflag, fp.fs`fsiFlag, fp.fs`lastClust, fp.fs`freeClust, fp.fs.win
    ensures fp.Valid() && fp.Core() && Follows(fp.canRead, fp.canWrite, Cap(fp.fs.geo, old(fp.fat), old(fp.chain)), State(old(fp.Contents()), old(fp.fptr)), call)
    ensures call == Done(fp, op, out) && (old(Durable(fp)) ==> Durable(fp) && (op.SyncOp? ==> OnMedium(fp)))
    ensures Spared(fp.fs.geo, old(fp.fat), old(fp.chain), old(fp.View()), fp.fat, fp.chain, fp.View(), fp.dirSect, fp.dirOfs)
    ensures Cap(fp.fs.geo, fp.fat, fp.chain) == Cap(fp.fs.geo, old(fp.fat), old(fp.chain))
  {
    hide *;
    WordsFacts(op);
    out := [];
    match op
    case ReadOp(n) => out, call := DoRead(fp, n);
    case WriteOp(data) => call := DoWrite(fp, data);
    case SeekOp(ofs) => call := DoSeek(fp, ofs);
    case SyncOp(tim) => call := DoSync(fp, tim);
    case TruncateOp(tim) => call := DoTruncate(fp, tim);
  }

  ghost predicate Matches(cs: seq<Call>, ops: seq<Op>, outs: seq<seq<byte>>) {
    && |cs| == |outs| <= |ops|
    && forall i :: 0 <= i < |cs| ==> cs[i].op == ops[i] && cs[i].out == outs[i]
  }

  lemma TraceGrows(canRead: bool, canWrite: bool, cap: nat, s: State, cs: seq<Call>, c: Call)
    requires Trace(canRead, canWrite, cap, s, cs) && Follows(canRead, canWrite, cap, Last(s, cs), c)
    ensures Trace(canRead, canWrite, cap, s, cs + [c]) && Last(s, cs + [c]) == c.after
  {
    assert (cs + [c])[..|cs|] == cs;
  }

  lemma TraceStarts(canRead: bool, canWrite: bool, cap: nat, s: State)
    ensures Trace(canRead, canWrite, cap, s, []) && Last(s, []) == s
  {
  }

  lemma MatchesGrows(cs: seq<Call>, ops: seq<Op>, outs: seq<seq<byte>>, c: Call, out: seq<byte>)
    requires Matches(cs, ops, outs) && |cs| < |ops| && c.op == ops[|cs|] && c.out == out
    ensures Matches(cs + [c], ops, outs + [out])
  {
  }

  lemma MatchesStarts(ops: seq<Op>)
    ensures Matches([], ops, [])
  {
  }

  /** After each f_sync of a run the medium stored the file as it was then. */
  ghost predicate SyncsStore(g: Geometry, s: nat, o: nat, cs: seq<Call>) {
    forall k :: 0 <= k < |cs| && cs[k].op.SyncOp? ==> Stored(g, cs[k].medium, s, o, cs[k].chain, cs[k].after.bytes)
  }

  lemma SyncsNone(g: Geometry, s: nat, o: nat)
    ensures SyncsStore(g, s, o, [])
  {
  }

  lemma SyncsGrow(g: Geometry, s: nat, o: nat, cs: seq<Call>, c: Call)
    requires SyncsStore(g, s, o, cs) && (c.op.SyncOp? ==> Stored(g, c.medium, s, o, c.chain, c.after.bytes))
    ensures SyncsStore(g, s, o, cs + [c])
  {
    hide Stored;
  }

  /** Any sequence of calls on an open file behaves as on an array of bytes with a cursor, and spares every
      other file and directory. From a durable state on, the medium alone stores the file after every f_sync, and at the
      end unless the file is marked as written. */
  method Run(fp: File, ops: seq<Op>) returns (outs: seq<seq<byte>>, ghost cs: seq<Call>)
    requires fp.Valid() && !fp.failed && forall i :: 0 <= i < |ops| ==> Words(ops[i])
    modifies fp`fptr, fp`clust, fp`sclust, fp`chain, fp`fat, fp`log, fp`dirty, fp`dsect, fp.buf, fp`fsize, fp`written
    modifies fp.fs`disk, fp.fs`winsect, fp.fs`wflag, fp.fs`fsiFlag, fp.fs`lastClust, fp.fs`freeClust, fp.fs.win
    ensures fp.Valid() && fp.Core() && Matches(cs, ops, outs) && |cs| == |ops|
    ensures Trace(fp.canRead, fp.canWrite, Cap(fp.fs.geo, old(fp.fat), old(fp.chain)), State(old(fp.Contents()), old(fp.fptr)), cs)
    ensures Last(State(old(fp.Contents()), old(fp.fptr)), cs) == State(fp.Contents(), fp.fptr)
    ensures Spared(fp.fs.geo, old(fp.fat), old(fp.chain), old(fp.View()), fp.fat, fp.chain, fp.View(), fp.dirSect, fp.dirOfs)
    ensures Cap(fp.fs.geo, fp.fat, fp.chain) == Cap(fp.fs.geo, old(fp.fat), old(fp.chain))
    ensures old(Durable(fp)) ==> Durable(fp) && SyncsStore(fp.fs.geo, fp.dirSect, fp.dirOfs, cs)
    ensures cs != [] ==> cs[|cs| - 1].medium == fp.fs.disk && cs[|cs| - 1].chain == fp.chain
  {
    hide *;
    ValidFacts(fp);
    ghost var s, g, f, ch, v := State(fp.Contents(), fp.fptr), fp.fs.geo, fp.fat, fp.chain, fp.View();
    SyncsNone(g, fp.dirSect, fp.dirOfs);
    SparedRefl(g, f, ch, v, fp.dirSect, fp.dirOfs);
    ghost var cap := Cap(g, f, ch);
    TraceStarts(fp.canRead, fp.canWrite, cap, s);
    MatchesStarts(ops);
    outs, cs := [], [];
    var i := 0;
    while i < |ops|
      invariant 0 <= i <= |ops| && |cs| == i
      invariant fp.Valid() && fp.Core() && Matches(cs, ops, outs)
      invariant Cap(g, fp.fat, fp.chain) == cap
      invariant Trace(fp.canRead, fp.canWrite, cap, s, cs) && Last(s, cs) == State(fp.Contents(), fp.fptr)
      invariant Spared(g, f, ch, v, fp.fat, fp.chain, fp.View(), fp.dirSect, fp.dirOfs)
      invariant old(Durable(fp)) ==> Durable(fp) && SyncsStore(g, fp.dirSect, fp.dirOfs, cs)
      invariant cs != [] ==> cs[|cs| - 1].medium == fp.fs.disk && cs[|cs| - 1].chain == fp.chain
    {
      ghost var f1, ch1, v1 := fp.fat, fp.chain, fp.View();
      var out, call := Perform(fp, ops[i]);
      SparedTrans(g, f, ch, v, f1, ch1, v1, fp.fat, fp.chain, fp.View(), fp.dirSect, fp.dirOfs);
      TraceGrows(fp.canRead, fp.canWrite, cap, s, cs, call);
      DoneIs(fp, ops[i], out);
      MatchesGrows(cs, ops, outs, call, out);
      if old(Durable(fp)) {
        if ops[i].SyncOp? { OnMediumFacts(fp); }
        SyncsGrow(g, fp.dirSect, fp.dirOfs, cs, call);
      }
      outs, cs := outs + [out], cs + [call];
      i := i + 1;
    }
  }

  /** A seek that leaves a gap behind the old end of the file; what is in it is left to the disk. */
  ghost predicate Gap(s: State, c: Call) {
    c.op.SeekOp? && c.after.pos > |s.bytes|
  }

  lemma FollowsOnce(canRead: bool, canWrite: bool, cap: nat, s: State, c: Call, s': State, c': Call)
    requires Follows(canRead, canWrite, cap, s, c) && Follows(canRead, canWrite, cap, s', c') && c.op == c'.op
    requires s.pos == s'.pos && |s.bytes| == |s'.bytes|
    ensures c.after.pos == c'.after.pos && |c.after.bytes| == |c'.after.bytes| && |c.out| == |c'.out|
    ensures s == s' && !Gap(s, c) ==> c.after == c'.after && c.out == c'.out
  {
    if c.op.SeekOp? && !Gap(s, c) {
      SamePrefixBytes(s.bytes, c.after.bytes);
      SamePrefixBytes(s'.bytes, c'.after.bytes);
    }
  }

  /** The calls and the capacity determine a run: position, size and number of bytes read after each call, and without
      gaps also every byte. */
  lemma {:induction false} TraceOnce(canRead: bool, canWrite: bool, cap: nat, s: State, cs: seq<Call>, cs': seq<Call>)
    requires Trace(canRead, canWrite, cap, s, cs) && Trace(canRead, canWrite, cap, s, cs') && |cs| == |cs'|
    requires forall k :: 0 <= k < |cs| ==> cs[k].op == cs'[k].op
    ensures Last(s, cs).pos == Last(s, cs').pos && |Last(s, cs).bytes| == |Last(s, cs').bytes|
    ensures cs != [] ==> |cs[|cs| - 1].out| == |cs'[|cs| - 1].out|
    ensures (forall k :: 0 <= k < |cs| ==> !Gap(Last(s, cs[..k]), cs[k])) ==>
      Last(s, cs) == Last(s, cs') && (cs != [] ==> cs[|cs| - 1].out == cs'[|cs| - 1].out)
    decreases |cs|
  {
    hide Follows;
    if cs != [] {
      var n := |cs| - 1;
      var a, b := cs[..n], cs'[..n];
      TraceOnce(canRead, canWrite, cap, s, a, b);
      FollowsOnce(canRead, canWrite, cap, Last(s, a), cs[n], Last(s, b), cs'[n]);
      forall k | 0 <= k < n ensures a[..k] == cs[..k] && a[k] == cs[k] { }
    }
  }

  /** Does a call store to byte i, or cut the file before it? */
  ghost predicate Touches(s: State, c: Call, i: nat) {
    || (c.op.WriteOp? && s.pos <= i < c.after.pos)
    || (c.op.TruncateOp? && s.pos <= i)
  }

  lemma FollowsKeeps(canRead: bool, canWrite: bool, cap: nat, s: State, c: Call, i: nat)
    requires Follows(canRead, canWrite, cap, s, c) && i < |s.bytes| && !Touches(s, c, i)
    ensures i < |c.after.bytes| && c.after.bytes[i] == s.bytes[i]
  {
  }

  /** In every run a byte that no call stores to or cuts off keeps its value. */
  lemma {:induction false} ByteKept(canRead: bool, canWrite: bool, cap: nat, s: State, cs: seq<Call>, i: nat)
    requires Trace(canRead, canWrite, cap, s, cs) && i < |s.bytes|
    requires forall k :: 0 <= k < |cs| ==> !Touches(Last(s, cs[..k]), cs[k], i)
    ensures i < |Last(s, cs).bytes| && Last(s, cs).bytes[i] == s.bytes[i]
    decreases |cs|
  {
    hide Follows, Touches;
    if cs != [] {
      var n := |cs| - 1;
      forall k | 0 <= k < n ensures !Touches(Last(s, cs[..n][..k]), cs[..n][k], i) {
        assert cs[..n][..k] == cs[..k];
      }
      ByteKept(canRead, canWrite, cap, s, cs[..n], i);
      FollowsKeeps(canRead, canWrite, cap, Last(s, cs[..n]), cs[n], i);
    }
  }
}
