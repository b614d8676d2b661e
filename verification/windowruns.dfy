/** Runs of everything that goes through the sector window: the FAT copies stay equal. */
module WindowRuns {
  import opened Layout
  import opened Window
  import opened FatAccess
  import opened DirTable
  import opened FileSync

  datatype WindowOp =
    | Show(sector: nat)                // move_window
    | Store(off: nat, b: byte)         // a store through the window, with wflag
    | Put(clst: nat, val: nat)         // put_fat
    | Clean(clst: nat)                 // the zero fill of dir_next
    | Flush                            // sync

  /** Arguments the code ever passes. */
  ghost predicate Sensible(g: Geometry, n: nat, op: WindowOp) {
    match op
    case Show(s) => s < n
    case Store(off, _) => off < SS
    case Put(_, val) => val < DWORDS
    case Clean(c) => g.Cluster(c)
    case Flush => true
  }

  /** Disks that agree on the FAT area are mirrored alike. */
  lemma MirrorKept(g: Geometry, d: seq<Sector>, e: seq<Sector>)
    requires Fits(g, d) && |e| == |d| && forall s :: g.fatbase <= s < g.RootBase() ==> e[s] == d[s]
    ensures Mirrored(g, e) <==> Mirrored(g, d)
  {
    if g.nFats == 2 {
      forall s: nat | g.InFat(s) ensures e[s] == d[s] && e[s + g.fsize] == d[s + g.fsize] { }
      assert Mirrored(g, d) ==> forall s: nat :: g.InFat(s) ==> e[s] == d[s] == d[s + g.fsize] == e[s + g.fsize];
      assert Mirrored(g, e) ==> forall s: nat :: g.InFat(s) ==> d[s] == e[s] == e[s + g.fsize] == d[s + g.fsize];
    }
  }

  lemma ZeroedMirror(g: Geometry, d: seq<Sector>, c: nat)
    requires Fits(g, d) && g.Cluster(c)
    ensures Mirrored(g, Zeroed(d, g.Base(c), g.csize)) <==> Mirrored(g, d)
  {
    BaseInside(g, c);
    MirrorKept(g, d, Zeroed(d, g.Base(c), g.csize));
  }

  lemma SyncedMirror(g: Geometry, d: seq<Sector>, fsi: bool, free: nat, last: nat)
    requires Fits(g, d)
    ensures Mirrored(g, Synced(g, d, fsi, free, last)) <==> Mirrored(g, d)
  {
    MirrorKept(g, d, Synced(g, d, fsi, free, last));
  }

  /** What the volume shows: the logical disk, the sector in the window, and whether FSInfo has to be written. */
  datatype Image = Image(logical: seq<Sector>, winsect: nat, fsi: bool)

  ghost function Seen(fs: Volume): Image
    requires fs.Valid()
    reads fs, fs.win
  {
    Image(fs.Logical(), fs.winsect, fs.fsiFlag)
  }

  /** What an operation makes of it. The counters free and last are those of the volume. */
  ghost predicate Effect(g: Geometry, free: nat, last: nat, a: Image, op: WindowOp, b: Image) {
    Fits(g, a.logical) && Fits(g, b.logical) && |b.logical| == |a.logical| &&
    match op
    case Show(s) => b == a.(winsect := if s != 0 then s else a.winsect)
    case Store(off, x) =>
      if g.Primary(a.winsect) && a.winsect != 0 then
        && a.winsect < |a.logical| && off < SS
        && b == a.(logical := WithSector(g, a.logical, a.winsect, a.logical[a.winsect][off := x]))
      else b == a
    case Put(c, val) =>
      if g.Cluster(c) then
        && OnlyFat(g, a.logical, b.logical) && Fat(g, b.logical) == Fat(g, a.logical)[c := val % g.fsType.Modulus()]
        && g.InFat(b.winsect) && b.fsi == a.fsi
      else b == a
    case Clean(c) => g.Cluster(c) && b == Image(Zeroed(a.logical, g.Base(c), g.csize), g.Base(c), a.fsi)
    case Flush =>
      && b.logical == Synced(g, a.logical, a.fsi, free, last) && b.winsect in {0, a.winsect}
      && b.fsi == (a.fsi && g.fsType != FAT32)
  }

  lemma PutEffect(g: Geometry, free: nat, last: nat, a: Image, c: nat, val: nat, b: Image)
    requires Fits(g, a.logical) && Fits(g, b.logical) && |b.logical| == |a.logical| && OnlyFat(g, a.logical, b.logical) && b.fsi == a.fsi
    requires if g.Cluster(c) then Fat(g, b.logical) == Fat(g, a.logical)[c := val % g.fsType.Modulus()] && g.InFat(b.winsect) else b == a
    ensures Effect(g, free, last, a, Put(c, val), b)
  {
    hide OnlyFat, Fits, Fat;
  }

  method StoreByte(fs: Volume, off: nat, b: byte)
    requires fs.Valid() && off < SS
    modifies fs`wflag, fs.win
    ensures fs.Valid() && Effect(fs.geo, fs.freeClust, fs.lastClust, old(Seen(fs)), Store(off, b), Seen(fs))
    ensures Mirrored(fs.geo, old(fs.Logical())) ==> Mirrored(fs.geo, fs.Logical())
  {
    hide Mirrored, WithSector;
    VolumeFits(fs);
    ghost var d := fs.Logical();
    if fs.geo.Primary(fs.winsect) && fs.winsect != 0 {
      WindowShows(fs);
      Poke(fs, off, b);
      if Mirrored(fs.geo, d) { WithSectorKeepsMirror(fs.geo, d, fs.winsect, fs.win[..]); }
    }
  }

  method ShowSector(fs: Volume, s: nat)
    requires fs.Valid() && s < |fs.disk|
    modifies fs`disk, fs`winsect, fs`wflag, fs.win
    ensures fs.Valid() && |fs.disk| == old(|fs.disk|)
    ensures Effect(fs.geo, fs.freeClust, fs.lastClust, old(Seen(fs)), Show(s), Seen(fs))
    ensures Mirrored(fs.geo, old(fs.Logical())) ==> Mirrored(fs.geo, fs.Logical())
  {
    hide Mirrored, WithSector;
    VolumeFits(fs);
    MoveWindow(fs, s);
    VolumeFits(fs);
  }

  method PutEntryOf(fs: Volume, c: nat, val: nat)
    requires fs.Valid() && val < DWORDS
    modifies fs`disk, fs`winsect, fs`wflag, fs.win
    ensures fs.Valid() && |fs.disk| == old(|fs.disk|)
    ensures Effect(fs.geo, fs.freeClust, fs.lastClust, old(Seen(fs)), Put(c, val), Seen(fs))
    ensures Mirrored(fs.geo, old(fs.Logical())) ==> Mirrored(fs.geo, fs.Logical())
  {
    hide Mirrored, WithSector;
    VolumeFits(fs);
    ghost var a := Seen(fs);
    var res := PutFat(fs, c, val);
    VolumeFits(fs);
    PutEffect(fs.geo, fs.freeClust, fs.lastClust, a, c, val, Seen(fs));
  }

  method CleanCluster(fs: Volume, c: nat)
    requires fs.Valid() && fs.geo.Cluster(c)
    modifies fs`disk, fs`winsect, fs`wflag, fs.win
    ensures fs.Valid() && |fs.disk| == old(|fs.disk|)
    ensures Effect(fs.geo, fs.freeClust, fs.lastClust, old(Seen(fs)), Clean(c), Seen(fs))
    ensures Mirrored(fs.geo, old(fs.Logical())) ==> Mirrored(fs.geo, fs.Logical())
  {
    hide Mirrored, WithSector, Zeroed;
    VolumeFits(fs);
    ZeroedMirror(fs.geo, fs.Logical(), c);
    ZeroCluster(fs, c);
    VolumeFits(fs);
  }

  method FlushAll(fs: Volume)
    requires fs.Valid()
    modifies fs`disk, fs`winsect, fs`wflag, fs`fsiFlag, fs.win
    ensures fs.Valid() && |fs.disk| == old(|fs.disk|)
    ensures Effect(fs.geo, fs.freeClust, fs.lastClust, old(Seen(fs)), Flush, Seen(fs))
    ensures Mirrored(fs.geo, old(fs.Logical())) ==> Mirrored(fs.geo, fs.Logical())
    ensures !fs.wflag
  {
    hide Mirrored, WithSector, Synced;
    VolumeFits(fs);
    SyncedMirror(fs.geo, fs.Logical(), fs.fsiFlag, fs.freeClust, fs.lastClust);
    SyncVolume(fs);
    VolumeFits(fs);
  }

  method Perform(fs: Volume, op: WindowOp)
    requires fs.Valid() && Sensible(fs.geo, |fs.disk|, op)
    modifies fs`disk, fs`winsect, fs`wflag, fs`fsiFlag, fs.win
    ensures fs.Valid() && |fs.disk| == old(|fs.disk|)
    ensures Effect(fs.geo, fs.freeClust, fs.lastClust, old(Seen(fs)), op, Seen(fs))
    ensures Mirrored(fs.geo, old(fs.Logical())) ==> Mirrored(fs.geo, fs.Logical())
    ensures !fs.wflag ==> fs.disk == fs.Logical()
    ensures op == Flush ==> !fs.wflag
  {
    hide Effect, Mirrored, WithSector;
    match op
    case Show(s) => ShowSector(fs, s);
    case Store(off, b) => StoreByte(fs, off, b);
    case Put(c, val) => PutEntryOf(fs, c, val);
    case Clean(c) => CleanCluster(fs, c);
    case Flush => FlushAll(fs);
  }

  /** Over every run each operation has its effect on what the volume shows, and FAT copies that start equal are equal on
      the disk whenever the window is clean. */
  method Run(fs: Volume, ops: seq<WindowOp>) returns (ghost images: seq<Image>)
    requires fs.Valid() && Mirrored(fs.geo, fs.Logical()) && forall i :: 0 <= i < |ops| ==> Sensible(fs.geo, |fs.disk|, ops[i])
    modifies fs`disk, fs`winsect, fs`wflag, fs`fsiFlag, fs.win
    ensures fs.Valid() && Mirrored(fs.geo, fs.Logical())
    ensures !fs.wflag ==> fs.disk == fs.Logical() && Mirrored(fs.geo, fs.disk)
    ensures |images| == |ops| + 1 && images[0] == old(Seen(fs)) && images[|ops|] == Seen(fs)
    ensures forall i :: 0 <= i < |ops| ==> Effect(fs.geo, fs.freeClust, fs.lastClust, images[i], ops[i], images[i + 1])
  {
    hide Mirrored, Sensible, Effect, Seen;
    images := [Seen(fs)];
    var i := 0;
    while i < |ops|
      invariant 0 <= i <= |ops| && fs.Valid() && Mirrored(fs.geo, fs.Logical()) && |fs.disk| == old(|fs.disk|)
      invariant |images| == i + 1 && images[0] == old(Seen(fs)) && images[i] == Seen(fs)
      invariant forall j :: 0 <= j < i ==> Effect(fs.geo, fs.freeClust, fs.lastClust, images[j], ops[j], images[j + 1])
    {
      Perform(fs, ops[i]);
      images := images + [Seen(fs)];
      i := i + 1;
    }
  }
}
