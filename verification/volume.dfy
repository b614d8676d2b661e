/** The file system object with its one-sector write-back window. */
module Window {
  import opened Layout

  /** What a flush of sector s does to the disk: the sector, and its image in the
      second FAT copy when it lies in the first one. */
  function WithSector(g: Geometry, d: seq<Sector>, s: nat, data: Sector): (r: seq<Sector>)
    requires g.Valid() && g.End() <= |d| && s < |d| && g.Primary(s)
    ensures |r| == |d|
  {
    var d1 := d[s := data];
    if g.InFat(s) && g.nFats == 2 then d1[s + g.fsize := data] else d1
  }

  /** Both FAT copies hold the same sectors. */
  ghost predicate Mirrored(g: Geometry, d: seq<Sector>)
    requires g.Valid() && g.End() <= |d|
  {
    g.nFats == 2 ==> forall s: nat :: g.InFat(s) ==> d[s] == d[s + g.fsize]
  }

  lemma WithSectorKeepsMirror(g: Geometry, d: seq<Sector>, s: nat, data: Sector)
    requires g.Valid() && g.End() <= |d| && s < |d| && g.Primary(s) && Mirrored(g, d)
    ensures Mirrored(g, WithSector(g, d, s, data))
  {
    var r := WithSector(g, d, s, data);
    if g.nFats == 2 {
      forall t: nat | g.InFat(t) ensures r[t] == r[t + g.fsize] {
        assert d[t] == d[t + g.fsize];
      }
    }
  }

  /** Replacing a sector twice is replacing it once. */
  lemma WithSectorTwice(g: Geometry, d: seq<Sector>, s: nat, a: Sector, b: Sector)
    requires g.Valid() && g.End() <= |d| && s < |d| && g.Primary(s)
    ensures WithSector(g, WithSector(g, d, s, a), s, b) == WithSector(g, d, s, b)
  {
  }

  class Volume {
    const geo: Geometry
    var disk: seq<Sector>
    const win: array<byte>
    var winsect: nat
    var wflag: bool
    var fsiFlag: bool
    var lastClust: nat
    var freeClust: nat

    /** A volume as chk_mounted leaves it: the window shows nothing. */
    constructor (g: Geometry, d: seq<Sector>, last: nat, free: nat)
      requires g.Valid() && g.End() <= |d| && last < DWORDS && free < DWORDS
      ensures Valid() && geo == g && disk == d && Logical() == d
      ensures !wflag && winsect == 0 && !fsiFlag && lastClust == last && freeClust == free
      ensures fresh(win)
    {
      geo, disk := g, d;
      win := new byte[SS](_ => 0);
      winsect, wflag, fsiFlag, lastClust, freeClust := 0, false, false, last, free;
    }

    ghost predicate Valid()
      reads this`disk, this`winsect, this`wflag, this`lastClust, this`freeClust, win
    {
      && geo.Valid()
      && win.Length == SS
      && geo.End() <= |disk|
      && winsect < |disk|
      && lastClust < DWORDS && freeClust < DWORDS
      && (wflag ==> geo.Primary(winsect))
      && (!wflag && winsect != 0 ==> win[..] == disk[winsect])
    }

    /** The disk as it will be once the dirty window is written back. */
    ghost function Logical(): (d: seq<Sector>)
      requires Valid()
      reads this`disk, this`winsect, this`wflag, this`lastClust, this`freeClust, win
      ensures |d| == |disk|
    {
      if wflag then WithSector(geo, disk, winsect, win[..]) else disk
    }
  }

  /** move_window. Moving to sector 0 only writes the window back. */
  method MoveWindow(fs: Volume, sector: nat)
    requires fs.Valid() && sector < |fs.disk|
    modifies fs`disk, fs`winsect, fs`wflag, fs.win
    ensures fs.Valid()
    ensures fs.Logical() == old(fs.Logical())
    ensures sector != 0 ==> fs.winsect == sector && fs.win[..] == fs.Logical()[sector]
    ensures sector == 0 ==> !fs.wflag && fs.winsect == old(fs.winsect)
    ensures sector == 0 ==> fs.win[..] == old(fs.win[..])
    ensures fs.wflag ==> old(fs.wflag) && sector == old(fs.winsect)
  {
    var wsect := fs.winsect;
    if wsect != sector {
      if fs.wflag {
        WriteBack(fs, wsect);
        fs.wflag := false;
      }
      if sector != 0 {
        ReadInto(fs.win, fs.disk[sector]);
        fs.winsect := sector;
      }
    }
  }

  /** The two disk writes of move_window: the sector and, in the FAT area, each copy. */
  method WriteBack(fs: Volume, sector: nat)
    requires fs.win.Length == SS && fs.geo.Valid() && fs.geo.End() <= |fs.disk|
    requires sector < |fs.disk| && fs.geo.Primary(sector)
    modifies fs`disk
    ensures fs.disk == WithSector(fs.geo, old(fs.disk), sector, fs.win[..])
  {
    var wsect := sector;
    fs.disk := fs.disk[wsect := fs.win[..]];
    if wsect < fs.geo.fatbase + fs.geo.fsize {
      var nf := fs.geo.nFats;
      while nf > 1
        invariant 1 <= nf <= fs.geo.nFats
        invariant |fs.disk| == old(|fs.disk|)
        invariant wsect == if nf == fs.geo.nFats then sector else sector + fs.geo.fsize
        invariant nf == fs.geo.nFats ==> fs.disk == old(fs.disk)[sector := fs.win[..]]
        invariant nf < fs.geo.nFats ==>
                    fs.disk == old(fs.disk)[sector := fs.win[..]][sector + fs.geo.fsize := fs.win[..]]
      {
        wsect := wsect + fs.geo.fsize;
        fs.disk := fs.disk[wsect := fs.win[..]];
        nf := nf - 1;
      }
    }
  }

  method ReadInto(win: array<byte>, data: Sector)
    requires win.Length == SS
    modifies win
    ensures win[..] == data
  {
    var i := 0;
    while i < SS
      invariant 0 <= i <= SS
      invariant forall j :: 0 <= j < i ==> win[j] == data[j]
    {
      win[i] := data[i];
      i := i + 1;
    }
  }

  /** A store through a pointer into the window, with the dirty flag set. */
  method Poke(fs: Volume, off: nat, b: byte)
    requires fs.Valid() && fs.geo.Primary(fs.winsect) && fs.winsect != 0 && off < SS
    modifies fs`wflag, fs.win
    ensures fs.Valid() && fs.wflag
    ensures fs.win[..] == old(fs.win[..])[off := b]
    ensures fs.Logical() == WithSector(fs.geo, old(fs.Logical()), fs.winsect, fs.win[..])
  {
    fs.win[off] := b;
    fs.wflag := true;
    WithSectorTwice(fs.geo, fs.disk, fs.winsect, old(fs.win[..]), fs.win[..]);
  }

  /** disk_read of one sector that bypasses the window. */
  method DiskRead(fs: Volume, s: nat) returns (data: Sector)
    requires fs.Valid() && s < |fs.disk| && fs.geo.RootBase() <= s && s != fs.winsect
    ensures data == fs.Logical()[s] == fs.disk[s]
  {
    data := fs.disk[s];
  }

  /** disk_write of one sector that bypasses the window. */
  method DiskWrite(fs: Volume, s: nat, data: Sector)
    requires fs.Valid() && s < |fs.disk| && fs.geo.RootBase() <= s && s != fs.winsect
    modifies fs`disk
    ensures fs.Valid()
    ensures fs.disk == old(fs.disk)[s := data]
    ensures fs.Logical() == old(fs.Logical())[s := data]
  {
    fs.disk := fs.disk[s := data];
  }

  function ZeroSector(): Sector { seq(SS, _ => 0) }

  /** mem_set of the window to 0. */
  method ClearWindow(win: array<byte>)
    requires win.Length == SS
    modifies win
    ensures win[..] == ZeroSector()
  {
    var i := 0;
    while i < SS
      invariant 0 <= i <= SS && forall j :: 0 <= j < i ==> win[j] == 0
    {
      win[i] := 0;
      i := i + 1;
    }
  }
}
