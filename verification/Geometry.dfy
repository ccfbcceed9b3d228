/**
  Where the parts of a FAT volume lie on the device.  A geometry is fixed when
  the volume is mounted; Mount.dfy shows that every accepted boot record gives
  a valid one.
  */
module Geometry {
  import opened Bytes

  datatype FatType = FAT12 | FAT16 | FAT32

  /** The layout fields of a filesystem object; devSize is the number of sectors of the device. */
  datatype Geo = Geo(
    fsType: FatType, nFats: nat, csize: nat, nFatent: nat, fsize: nat, nRootdir: nat,
    volbase: nat, fatbase: nat, dirbase: nat, database: nat, devSize: nat)
  {
    /** Sectors taken by all copies of the allocation table. */
    function FatArea(): nat {
      if nFats == 2 then 2 * fsize else fsize
    }

    /** Bytes the table needs for nFatent entries. */
    function FatBytes(): nat {
      TableBytes(fsType, nFatent)
    }

    /** Largest number of table entries of the FAT type. */
    function MaxFatent(): nat {
      match fsType
      case FAT12 => 0xFF5 + 2
      case FAT16 => 0xFFF5 + 2
      case FAT32 => 0x0FFF_FFF5 + 2
    }

    /** Sectors of the static root directory. */
    function RootSectors(): nat {
      nRootdir / 16
    }

    ghost predicate Valid() {
      && (nFats == 1 || nFats == 2)
      && ClusterSize(csize)
      && 3 <= nFatent <= MaxFatent()
      && FatBytes() <= fsize * SECTOR_SIZE
      && volbase < fatbase
      && nRootdir % 16 == 0
      && (fsType.FAT32? <==> nRootdir == 0)
      && (!fsType.FAT32? ==> dirbase == fatbase + FatArea())
      && database == fatbase + FatArea() + RootSectors()
      && FirstSector(nFatent) <= devSize < 0x1_0000_0000
    }

    predicate InRange(c: nat) {
      2 <= c < nFatent
    }

    predicate InFat1(s: nat) {
      fatbase <= s < fatbase + fsize
    }

    predicate OutsideFats(s: nat) {
      s < fatbase || fatbase + FatArea() <= s
    }

    /** First sector of the run of csize sectors that belongs to cluster c. */
    function FirstSector(c: nat): nat
      requires 2 <= c
    {
      database + RunLength(csize, c - 2)
    }
  }

  /** Bytes that n table entries need. */
  function TableBytes(t: FatType, n: nat): nat {
    match t
    case FAT12 => n * 3 / 2 + n % 2
    case FAT16 => n * 2
    case FAT32 => n * 4
  }

  /** Sectors in n clusters. */
  function RunLength(csize: nat, n: nat): nat {
    if n == 0 then 0 else RunLength(csize, n - 1) + csize
  }

  /** A volume is the sequence of its sectors. */
  ghost predicate IsVolume(g: Geo, vol: seq<Sector>) {
    g.Valid() && |vol| == g.devSize
  }

  predicate ClusterSize(n: nat) {
    n == 1 || n == 2 || n == 4 || n == 8 || n == 16 || n == 32 || n == 64 || n == 128
  }

  /** The run length is the product the source computes. */
  lemma {:induction false} RunLengthIsProduct(csize: nat, n: nat)
    ensures RunLength(csize, n) == csize * n
  {
    if n > 0 {
      RunLengthIsProduct(csize, n - 1);
      assert csize * n == csize * (n - 1) + csize;
    }
  }

  lemma {:induction false} RunsApart(csize: nat, a: nat, b: nat)
    requires a < b
    ensures RunLength(csize, a) + csize <= RunLength(csize, b)
  {
    if a + 1 < b {
      RunsApart(csize, a, b - 1);
    }
  }

  /** Clusters own disjoint runs of sectors inside the data area. */
  lemma ClusterRuns(g: Geo, c: nat, d: nat)
    requires g.Valid() && g.InRange(c) && g.InRange(d)
    ensures g.database <= g.FirstSector(c) && g.FirstSector(c) + g.csize <= g.devSize
    ensures c < d ==> g.FirstSector(c) + g.csize <= g.FirstSector(d)
  {
    RunsApart(g.csize, c - 2, g.nFatent - 2);
    if c < d {
      RunsApart(g.csize, c - 2, d - 2);
    }
  }

  /** The clusters lie one behind the other from the start of the data area; numbers start at 2. */
  lemma ClusterPlace(g: Geo, c: nat)
    requires 2 <= c
    ensures g.FirstSector(c) == g.database + g.csize * (c - 2)
    ensures g.InRange(c) <==> c < g.nFatent
  {
    RunLengthIsProduct(g.csize, c - 2);
  }

  /** clst2sect: first sector of a cluster, or 0 when the number is out of range. */
  method Clst2Sect(g: Geo, clst: nat) returns (s: nat)
    requires g.Valid() && clst < 0x1_0000_0000
    ensures s == if g.InRange(clst) then g.FirstSector(clst) else 0
  {
    var c := Sub32(clst, 2);
    Sub32Range(clst, 2, g.nFatent - 2);
    if c >= g.nFatent - 2 {
      return 0;
    }
    RunLengthIsProduct(g.csize, c);
    return g.database + g.csize * c;
  }
}
