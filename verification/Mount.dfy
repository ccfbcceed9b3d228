/**
  Mounting: the boot record gives the layout of the volume (mount_volume).
  */
module Mount {
  import opened Bytes
  import opened Geometry
  import opened FatTable
  import opened FileSystem
  import opened FileData
  import opened Entries

  const BPB_BYTS_PER_SEC := 11
  const BPB_SEC_PER_CLUS := 13
  const BPB_RSVD_SEC_CNT := 14
  const BPB_NUM_FATS := 16
  const BPB_ROOT_ENT_CNT := 17
  const BPB_TOT_SEC_16 := 19
  const BPB_FAT_SZ_16 := 22
  const BPB_TOT_SEC_32 := 32
  const BPB_FAT_SZ_32 := 36
  const BPB_FS_VER_32 := 42
  const BPB_ROOT_CLUS_32 := 44
  const BPB_FS_INFO_32 := 48
  const UNKNOWN := 0xFFFF_FFFF

  function Wrap32(x: nat): nat {
    x % 0x1_0000_0000
  }

  /** A 16-bit count, or the 32-bit one when it is 0. */
  function Count(b: Sector, at16: nat, at32: nat): nat
    requires at16 + 2 <= SECTOR_SIZE && at32 + 4 <= SECTOR_SIZE
  {
    if LdWord(b, at16) != 0 then LdWord(b, at16) else LdDword(b, at32)
  }

  /** Sectors in front of the data area, as the boot record means them: without wrap-around. */
  function SystemSectors(b: Sector): nat {
    LdWord(b, BPB_RSVD_SEC_CNT)
    + (if b[BPB_NUM_FATS] == 2 then 2 * Count(b, BPB_FAT_SZ_16, BPB_FAT_SZ_32)
      else Count(b, BPB_FAT_SZ_16, BPB_FAT_SZ_32))
    + LdWord(b, BPB_ROOT_ENT_CNT) / 16
  }

  /** FAT type by the number of clusters. */
  function TypeOf(nclst: nat): FatType {
    if nclst <= 0xFF5 then FAT12 else if nclst <= 0xFFF5 then FAT16 else FAT32
  }

  /** The checks of mount_volume that only look at single fields. */
  predicate FieldsFit(b: Sector) {
    && LdWord(b, BPB_BYTS_PER_SEC) == SECTOR_SIZE
    && (b[BPB_NUM_FATS] == 1 || b[BPB_NUM_FATS] == 2)
    && ClusterSize(b[BPB_SEC_PER_CLUS])
    && LdWord(b, BPB_ROOT_ENT_CNT) % 16 == 0
    && LdWord(b, BPB_RSVD_SEC_CNT) != 0
  }

  function TotalSectors(b: Sector): nat {
    Count(b, BPB_TOT_SEC_16, BPB_TOT_SEC_32)
  }

  /** Whole clusters between the system area, as computed in 32 bits, and the end of the volume. */
  ghost function Clusters(b: Sector): nat
    requires FieldsFit(b)
  {
    var sys := Wrap32(SystemSectors(b));
    if TotalSectors(b) < sys then 0 else CluIdx(b[BPB_SEC_PER_CLUS], TotalSectors(b) - sys)
  }

  /** The layout of the volume whose boot record b is in sector bsect of a device. */
  ghost function LayoutOf(b: Sector, bsect: nat, devSize: nat): Geo
    requires FieldsFit(b)
  {
    var fatbase := Wrap32(bsect + LdWord(b, BPB_RSVD_SEC_CNT));
    var fsize := Count(b, BPB_FAT_SZ_16, BPB_FAT_SZ_32);
    var fasize := Wrap32(if b[BPB_NUM_FATS] == 2 then 2 * fsize else fsize);
    var t := TypeOf(Clusters(b));
    Geo(t, b[BPB_NUM_FATS], b[BPB_SEC_PER_CLUS], Clusters(b) + 2, fsize, LdWord(b, BPB_ROOT_ENT_CNT),
        bsect, fatbase, if t.FAT32? then LdDword(b, BPB_ROOT_CLUS_32) else Wrap32(fatbase + fasize),
        Wrap32(bsect + Wrap32(SystemSectors(b))), devSize)
  }

  /** The boot records mount_volume accepts. */
  ghost predicate Mountable(b: Sector) {
    && FieldsFit(b) && 1 <= Clusters(b) <= 0x0FFF_FFF5
    && (if TypeOf(Clusters(b)).FAT32? then LdWord(b, BPB_FS_VER_32) == 0 && LdWord(b, BPB_ROOT_ENT_CNT) == 0
        else LdWord(b, BPB_ROOT_ENT_CNT) != 0)
    && TableBytes(TypeOf(Clusters(b)), Clusters(b) + 2) <= Count(b, BPB_FAT_SZ_16, BPB_FAT_SZ_32) * SECTOR_SIZE
  }

  /** The volume ends on the device, and no sum that locates its parts exceeds 32 bits. */
  ghost predicate Fits(b: Sector, bsect: nat, devSize: nat)
    requires FieldsFit(b)
  {
    bsect + SystemSectors(b) + RunLength(b[BPB_SEC_PER_CLUS], Clusters(b)) <= devSize < 0x1_0000_0000
  }

  // ---- the boot record by bytes

  /** Sectors of one table copy: the word at 22, or the dword at 36. */
  function FatSectors(b: Sector): nat {
    if LdWord(b, 22) != 0 then LdWord(b, 22) else LdDword(b, 36)
  }

  /** Clusters: the sectors behind the reserved ones, the tables and the root directory, by the cluster size. */
  ghost function ClustersIn(b: Sector): nat {
    var total := if LdWord(b, 19) != 0 then LdWord(b, 19) else LdDword(b, 32);
    var fats := if b[16] == 2 then 2 * FatSectors(b) else FatSectors(b);
    var sys := (LdWord(b, 14) + fats + LdWord(b, 17) / 16) % 0x1_0000_0000;
    if b[13] == 0 || total < sys then 0 else (total - sys) / b[13]
  }

  /** Which boot records mount_volume accepts, in the positions of the format. */
  lemma MountableByBytes(b: Sector)
    ensures Mountable(b) <==>
      && LdWord(b, 11) == 512 && (b[16] == 1 || b[16] == 2)
      && (b[13] == 1 || b[13] == 2 || b[13] == 4 || b[13] == 8 || b[13] == 16 || b[13] == 32 || b[13] == 64
          || b[13] == 128)
      && LdWord(b, 14) != 0 && LdWord(b, 17) % 16 == 0 && 1 <= ClustersIn(b) <= 0x0FFF_FFF5
      && (if ClustersIn(b) > 0xFFF5 then
            LdWord(b, 42) == 0 && LdWord(b, 17) == 0 && 4 * (ClustersIn(b) + 2) <= 512 * FatSectors(b)
          else
            && LdWord(b, 17) != 0
            && (if ClustersIn(b) > 0xFF5 then 2 * (ClustersIn(b) + 2) <= 512 * FatSectors(b)
                else (3 * (ClustersIn(b) + 2) + 1) / 2 <= 512 * FatSectors(b)))
    ensures Mountable(b) ==> Clusters(b) == ClustersIn(b)
  {
    hide LdWord, LdDword;
    if FieldsFit(b) {
      ClustersByBytes(b);
      TableFits(Clusters(b), FatSectors(b));
    }
    hide Clusters, ClustersIn, TypeOf, TableBytes;
  }

  lemma TableFits(n: nat, fsize: nat)
    ensures TypeOf(n).FAT32? <==> n > 0xFFF5
    ensures TableBytes(TypeOf(n), n + 2) <= fsize * SECTOR_SIZE <==>
      if n > 0xFFF5 then 4 * (n + 2) <= 512 * fsize
      else if n > 0xFF5 then 2 * (n + 2) <= 512 * fsize
      else (3 * (n + 2) + 1) / 2 <= 512 * fsize
  {
  }

  lemma ClustersByBytes(b: Sector)
    requires FieldsFit(b)
    ensures Clusters(b) == ClustersIn(b)
  {
    hide LdWord, LdDword;
  }

  /** The layout of an accepted boot record, in the positions of the format. */
  lemma LayoutByBytes(b: Sector, bsect: nat, devSize: nat)
    requires Mountable(b)
    ensures var g := LayoutOf(b, bsect, devSize);
      && (g.fsType.FAT12? <==> g.nFatent <= 0xFF5 + 2) && (g.fsType.FAT32? <==> g.nFatent > 0xFFF5 + 2)
      && g.nFats == b[16] && g.csize == b[13] && g.nRootdir == LdWord(b, 17) && g.fsize == FatSectors(b)
      && g.nFatent == ClustersIn(b) + 2 && g.volbase == bsect && g.devSize == devSize
      && g.fatbase == (bsect + LdWord(b, 14)) % 0x1_0000_0000
      && (g.fsType.FAT32? ==> g.dirbase == LdDword(b, 44))
  {
    MountableByBytes(b);
    hide ClustersIn, Clusters, LdWord, LdDword, SystemSectors;
  }

  /** On the device the parts follow each other: reserved sectors, tables, root directory, data. */
  lemma PartsInOrder(b: Sector, bsect: nat, devSize: nat)
    requires Mountable(b) && Fits(b, bsect, devSize)
    ensures var g := LayoutOf(b, bsect, devSize);
      && g.fatbase == bsect + LdWord(b, 14) && g.database == g.fatbase + g.FatArea() + LdWord(b, 17) / 16
      && g.FatArea() == (if b[16] == 2 then 2 * FatSectors(b) else FatSectors(b))
      && (!g.fsType.FAT32? ==> g.dirbase == g.fatbase + g.FatArea())
  {
    MountLayout(b, bsect, devSize);
    hide LdWord, LdDword, Clusters, RunLength, Wrap32, Mountable, TypeOf, SystemSectors;
    WordRange(b, BPB_RSVD_SEC_CNT);
    WordRange(b, BPB_ROOT_ENT_CNT);
    Sums32(bsect, LdWord(b, BPB_RSVD_SEC_CNT), LayoutOf(b, bsect, devSize).FatArea(), LdWord(b, BPB_ROOT_ENT_CNT) / 16);
  }

  /** The cluster size is a power of two, as the source tests it. */
  lemma PowerOfTwo(v: bv8)
    ensures ClusterSize(v as nat) <==> v != 0 && v & (v - 1) == 0
  {
  }

  /** A boot record of a FAT12 volume: the 2880 sectors of a diskette, two tables of 9 sectors, 224 root entries. */
  predicate Diskette(b: Sector) {
    && b[11] == 0 && b[12] == 2 && b[13] == 1 && b[14] == 1 && b[15] == 0 && b[16] == 2 && b[17] == 0xE0 && b[18] == 0
    && b[19] == 0x40 && b[20] == 0x0B && b[22] == 9 && b[23] == 0
  }

  /** A boot record of a FAT16 volume: 40000 clusters of one sector, two tables of 157 sectors, 512 root entries. */
  predicate SmallDisk(b: Sector) {
    && b[11] == 0 && b[12] == 2 && b[13] == 1 && b[14] == 1 && b[15] == 0 && b[16] == 2 && b[17] == 0 && b[18] == 2
    && b[19] == 0x9B && b[20] == 0x9D && b[22] == 0x9D && b[23] == 0
  }

  lemma DisketteFields(b: Sector)
    requires Diskette(b)
    ensures FieldsFit(b) && SystemSectors(b) == 33 && TotalSectors(b) == 2880 && b[BPB_SEC_PER_CLUS] == 1
    ensures LdWord(b, BPB_RSVD_SEC_CNT) == 1 && LdWord(b, BPB_ROOT_ENT_CNT) == 224
    ensures Count(b, BPB_FAT_SZ_16, BPB_FAT_SZ_32) == 9
  {
  }

  /** It is accepted as FAT12, and fits a device of 2880 sectors. */
  lemma DisketteMounts(b: Sector)
    requires Diskette(b)
    ensures Mountable(b) && Fits(b, 0, 2880) && LayoutOf(b, 0, 2880).fsType.FAT12?
    ensures LayoutOf(b, 0, 2880).nFatent == 2849
  {
    hide LdWord, LdDword, RunLength, Count, SystemSectors, TotalSectors, Diskette;
    DisketteFields(b);
    assert Clusters(b) == 2847;
    hide Clusters;
    RunLengthIsProduct(1, 2847);
  }

  lemma SmallDiskFields(b: Sector)
    requires SmallDisk(b)
    ensures FieldsFit(b) && SystemSectors(b) == 347 && TotalSectors(b) == 40347 && b[BPB_SEC_PER_CLUS] == 1
    ensures LdWord(b, BPB_RSVD_SEC_CNT) == 1 && LdWord(b, BPB_ROOT_ENT_CNT) == 512
    ensures Count(b, BPB_FAT_SZ_16, BPB_FAT_SZ_32) == 157
  {
  }

  /** It is accepted as FAT16, and fits a device of 40347 sectors. */
  lemma SmallDiskMounts(b: Sector)
    requires SmallDisk(b)
    ensures Mountable(b) && Fits(b, 0, 40347) && LayoutOf(b, 0, 40347).fsType.FAT16?
    ensures LayoutOf(b, 0, 40347).nFatent == 40002
  {
    hide LdWord, LdDword, RunLength, Count, SystemSectors, TotalSectors, SmallDisk;
    SmallDiskFields(b);
    assert Clusters(b) == 40000;
    hide Clusters;
    RunLengthIsProduct(1, 40000);
  }

  lemma TwoBootRecords() returns (d: Sector, s: Sector)
    ensures Diskette(d) && SmallDisk(s)
  {
    d := seq(SECTOR_SIZE, i => if i == 12 || i == 16 then 2 else if i == 13 || i == 14 then 1 else if i == 17 then 0xE0
                               else if i == 19 then 0x40 else if i == 20 then 0x0B else if i == 22 then 9 else 0);
    s := seq(SECTOR_SIZE, i => if i == 12 || i == 16 || i == 18 then 2 else if i == 13 || i == 14 then 1
                               else if i == 19 then 0x9B else if i == 20 || i == 22 then 0x9D else 0);
  }

  /** The first half of the BPB analysis: fields that must have certain values. */
  method ReadFields(b: Sector) returns (ok: bool, fsize: nat, nFats: nat, csize: nat, nRootdir: nat, nrsv: nat)
    ensures ok == FieldsFit(b)
    ensures ok ==>
      fsize == Count(b, BPB_FAT_SZ_16, BPB_FAT_SZ_32) && nFats == b[BPB_NUM_FATS] && csize == b[BPB_SEC_PER_CLUS]
    ensures ok ==> nRootdir == LdWord(b, BPB_ROOT_ENT_CNT) && nrsv == LdWord(b, BPB_RSVD_SEC_CNT)
  {
    hide LdWord, LdDword;
    ok, fsize, nFats, csize, nRootdir, nrsv := false, 0, 0, 0, 0, 0;
    if LdWord(b, BPB_BYTS_PER_SEC) != SECTOR_SIZE {
      return;
    }
    fsize := LdWord(b, BPB_FAT_SZ_16);
    if fsize == 0 {
      fsize := LdDword(b, BPB_FAT_SZ_32);
    }
    nFats := b[BPB_NUM_FATS];
    if nFats != 1 && nFats != 2 {
      return;
    }
    csize := b[BPB_SEC_PER_CLUS];
    if !ClusterSize(csize) {
      return;
    }
    nRootdir := LdWord(b, BPB_ROOT_ENT_CNT);
    if nRootdir % 16 != 0 {
      return;
    }
    nrsv := LdWord(b, BPB_RSVD_SEC_CNT);
    ok := nrsv != 0;
  }

  /** Number of clusters, 0 if the volume is too small, and sectors in front of the data area. */
  method CountClusters(b: Sector, fasize: nat, csize: nat, nRootdir: nat, nrsv: nat) returns (nclst: nat, sysect: nat)
    requires FieldsFit(b) && csize == b[BPB_SEC_PER_CLUS]
    requires Wrap32(nrsv + fasize + nRootdir / 16) == Wrap32(SystemSectors(b))
    ensures nclst == Clusters(b) && sysect == Wrap32(SystemSectors(b))
  {
    hide LdWord, LdDword, SystemSectors;
    var tsect := LdWord(b, BPB_TOT_SEC_16);
    if tsect == 0 {
      tsect := LdDword(b, BPB_TOT_SEC_32);
    }
    sysect := Wrap32(nrsv + fasize + nRootdir / 16);
    if tsect < sysect {
      return 0, sysect;
    }
    nclst := (tsect - sysect) / csize;
  }

  /** The FAT type, and whether root directory and table go with it. */
  method CheckType(b: Sector, nclst: nat, fsize: nat, nRootdir: nat) returns (ok: bool, fmt: FatType)
    ensures fmt == TypeOf(nclst)
    ensures ok <==>
      && (if fmt.FAT32? then LdWord(b, BPB_FS_VER_32) == 0 && nRootdir == 0 else nRootdir != 0)
      && TableBytes(fmt, nclst + 2) <= fsize * SECTOR_SIZE
  {
    hide LdWord;
    fmt := FAT32;
    if nclst <= 0xFFF5 {
      fmt := FAT16;
    }
    if nclst <= 0xFF5 {
      fmt := FAT12;
    }
    var nFatent := nclst + 2;
    var szbfat;
    if fmt == FAT32 {
      if LdWord(b, BPB_FS_VER_32) != 0 || nRootdir != 0 {
        return false, fmt;
      }
      szbfat := nFatent * 4;
    } else {
      if nRootdir == 0 {
        return false, fmt;
      }
      szbfat := if fmt == FAT16 then nFatent * 2 else nFatent * 3 / 2 + nFatent % 2;
    }
    ok := fsize >= (szbfat + (SECTOR_SIZE - 1)) / SECTOR_SIZE;
  }

  lemma SystemSum(b: Sector)
    requires FieldsFit(b)
    ensures var fsize := Count(b, BPB_FAT_SZ_16, BPB_FAT_SZ_32);
      Wrap32(LdWord(b, BPB_RSVD_SEC_CNT) + Wrap32(if b[BPB_NUM_FATS] == 2 then 2 * fsize else fsize)
             + LdWord(b, BPB_ROOT_ENT_CNT) / 16) == Wrap32(SystemSectors(b))
  {
    hide LdWord, LdDword, Count;
    var fsize := Count(b, BPB_FAT_SZ_16, BPB_FAT_SZ_32);
    WrapInside(LdWord(b, BPB_RSVD_SEC_CNT) + LdWord(b, BPB_ROOT_ENT_CNT) / 16,
               if b[BPB_NUM_FATS] == 2 then 2 * fsize else fsize);
  }

  lemma WrapInside(a: nat, x: nat)
    ensures Wrap32(a + Wrap32(x)) == Wrap32(a + x)
  {
    var q, r := x / 0x1_0000_0000, x % 0x1_0000_0000;
    var p, t := (a + r) / 0x1_0000_0000, (a + r) % 0x1_0000_0000;
    assert a + x == (q + p) * 0x1_0000_0000 + t;
  }

  /** The BPB part of mount_volume. */
  method AnalyseBpb(b: Sector, bsect: dword, devSize: nat) returns (res: Result, g: Geo)
    ensures res == if Mountable(b) then Ok else NoFilesystem
    ensures res == Ok ==> g == LayoutOf(b, bsect, devSize)
    ensures res == Ok ==>
      && (g.fsType.FAT12? <==> g.nFatent <= 0xFF5 + 2) && (g.fsType.FAT32? <==> g.nFatent > 0xFFF5 + 2)
      && (g.fsType.FAT32? ==> g.dirbase == LdDword(b, 44))
  {
    if Mountable(b) {
      LayoutByBytes(b, bsect, devSize);
    }
    hide LdWord, LdDword, RunLength, Clusters, Count, TableBytes, SystemSectors, Wrap32;
    g := Geo(FAT12, 0, 0, 0, 0, 0, 0, 0, 0, 0, 0);
    res := NoFilesystem;
    var ok, fsize, nFats, csize, nRootdir, nrsv := ReadFields(b);
    if !ok {
      return;
    }
    var fasize := Wrap32(if nFats == 2 then 2 * fsize else fsize);
    SystemSum(b);
    var nclst, sysect := CountClusters(b, fasize, csize, nRootdir, nrsv);
    if nclst == 0 || nclst > 0x0FFF_FFF5 {
      return;
    }
    var fmt;
    ok, fmt := CheckType(b, nclst, fsize, nRootdir);
    if !ok {
      return;
    }
    var fatbase, database := Wrap32(bsect + nrsv), Wrap32(bsect + sysect);
    var dirbase := if fmt == FAT32 then LdDword(b, BPB_ROOT_CLUS_32) else Wrap32(fatbase + fasize);
    g := Geo(fmt, nFats, csize, nclst + 2, fsize, nRootdir, bsect, fatbase, dirbase, database, devSize);
    res := Ok;
  }

  /** Positions computed in 32 bits follow each other exactly when the sums do not wrap. */
  lemma Sums32(bsect: dword, nrsv: nat, area: nat, root: nat)
    requires 0 < nrsv < 0x1_0000 && root < 0x1_0000
    ensures var fatbase, database := Wrap32(bsect + nrsv), Wrap32(bsect + Wrap32(nrsv + area + root));
      if bsect + nrsv + area + root < 0x1_0000_0000 then
        fatbase == bsect + nrsv && database == fatbase + area + root && Wrap32(fatbase + Wrap32(area)) == fatbase + area
      else !(bsect < fatbase && database == fatbase + area + root)
  {
    if bsect + nrsv < 0x1_0000_0000 {
      assert Wrap32(bsect + nrsv) == bsect + nrsv;
    } else {
      assert Wrap32(bsect + nrsv) == bsect + nrsv - 0x1_0000_0000;
    }
  }

  /**
    An accepted boot record gives a valid layout (table copies, root directory
    and data area one behind the other on the device, room for every entry)
    exactly when the volume ends on the device without exceeding 32 bits.
    */
  lemma MountLayout(b: Sector, bsect: dword, devSize: nat)
    requires Mountable(b)
    ensures LayoutOf(b, bsect, devSize).Valid() <==> Fits(b, bsect, devSize)
  {
    hide LdWord, LdDword, RunLength, Clusters, Count, Wrap32;
    WordRange(b, BPB_RSVD_SEC_CNT);
    WordRange(b, BPB_ROOT_ENT_CNT);
    Sums32(bsect, LdWord(b, BPB_RSVD_SEC_CNT), LayoutOf(b, bsect, devSize).FatArea(), LdWord(b, BPB_ROOT_ENT_CNT) / 16);
  }

  lemma WordRange(b: Sector, at: nat)
    requires at + 2 <= SECTOR_SIZE
    ensures LdWord(b, at) < 0x1_0000
  {
  }

  /** A volume whose sectors are all on the device and whose system area is not counted past 32 bits fits. */
  lemma WholeVolumeFits(b: Sector, bsect: dword, devSize: nat)
    requires Mountable(b) && SystemSectors(b) < 0x1_0000_0000 && bsect + TotalSectors(b) <= devSize < 0x1_0000_0000
    ensures Fits(b, bsect, devSize)
    ensures LayoutOf(b, bsect, devSize).FirstSector(Clusters(b) + 2) <= bsect + TotalSectors(b)
  {
    hide LdWord, LdDword, RunLength, CluIdx, CluOfs;
    Locate(b[BPB_SEC_PER_CLUS], TotalSectors(b) - SystemSectors(b));
  }

  // ---- FSInfo

  /** Whether a sector is an FSInfo sector. */
  predicate IsFsInfo(s: Sector) {
    LdWord(s, 510) == 0xAA55 && LdDword(s, 0) == 0x41615252 && LdDword(s, 484) == 0x61417272
  }

  /** FSInfo is used on FAT32 volumes that announce it in the sector after the boot record. */
  ghost predicate UsesFsInfo(b: Sector)
    requires FieldsFit(b)
  {
    TypeOf(Clusters(b)).FAT32? && LdWord(b, BPB_FS_INFO_32) == 1
  }

  /** FSInfo by bytes: where it is announced, and its three signatures. */
  lemma FsInfoByBytes(b: Sector, s: Sector)
    requires Mountable(b)
    ensures UsesFsInfo(b) <==> ClustersIn(b) > 0xFFF5 && b[48] == 1 && b[49] == 0
    ensures IsFsInfo(s) <==>
      && s[510] == 0x55 && s[511] == 0xAA && s[0] == 0x52 && s[1] == 0x52 && s[2] == 0x61 && s[3] == 0x41
      && s[484] == 0x72 && s[485] == 0x72 && s[486] == 0x41 && s[487] == 0x61
  {
    MountableByBytes(b);
    WordIs(s, 510, 0x55, 0xAA);
    WordIs(b, 48, 1, 0);
    DwordIs(s, 0, 0x52, 0x52, 0x61, 0x41);
    DwordIs(s, 484, 0x72, 0x72, 0x41, 0x61);
    hide LdWord, LdDword, Clusters, ClustersIn, Mountable;
  }

  lemma WordIs(s: Sector, i: nat, b0: byte, b1: byte)
    requires i + 2 <= SECTOR_SIZE
    ensures LdWord(s, i) == b0 as nat + 0x100 * (b1 as nat) <==> s[i] == b0 && s[i + 1] == b1
  {
  }

  lemma DwordIs(s: Sector, i: nat, b0: byte, b1: byte, b2: byte, b3: byte)
    requires i + 4 <= SECTOR_SIZE
    ensures LdDword(s, i) == b0 as nat + 0x100 * (b1 as nat) + 0x1_0000 * (b2 as nat) + 0x100_0000 * (b3 as nat) <==>
            s[i] == b0 && s[i + 1] == b1 && s[i + 2] == b2 && s[i + 3] == b3
  {
  }

  /** What sync_fs writes is recognised at the next mount and gives the same counters back. */
  lemma FsInfoReadsBack(free: dword, last: dword)
    ensures var s := FsInfo(free, last); IsFsInfo(s) && LdDword(s, 488) == free && LdDword(s, 492) == last
  {
    var s0: Sector := seq(SECTOR_SIZE, _ => 0);
    var s1 := Patch(s0, 510, WordBytes(0xAA55));
    var s2 := Patch(s1, 0, DwordBytes(0x41615252));
    var s3 := Patch(s2, 484, DwordBytes(0x61417272));
    var s4 := Patch(s3, 488, DwordBytes(free));
    hide LdWord, LdDword, Patch, WordBytes, DwordBytes;
    WordRoundTrip(s0, 510, 0xAA55);
    DwordRoundTrip(s1, 0, 0x41615252);
    DwordRoundTrip(s2, 484, 0x61417272);
    DwordRoundTrip(s3, 488, free);
    DwordRoundTrip(s4, 492, last);
    WordKept(s1, 510, 0, DwordBytes(0x41615252));
    WordKept(s2, 510, 484, DwordBytes(0x61417272));
    WordKept(s3, 510, 488, DwordBytes(free));
    WordKept(s4, 510, 492, DwordBytes(last));
    DwordKept(s2, 0, 484, DwordBytes(0x61417272));
    DwordKept(s3, 0, 488, DwordBytes(free));
    DwordKept(s4, 0, 492, DwordBytes(last));
    DwordKept(s3, 484, 488, DwordBytes(free));
    DwordKept(s4, 484, 492, DwordBytes(last));
    DwordKept(s4, 488, 492, DwordBytes(last));
  }

  /** The FSInfo sector lies in front of the table exactly when there are two reserved sectors. */
  lemma FsInfoMissesTable(b: Sector, bsect: dword, devSize: nat)
    requires Mountable(b) && Fits(b, bsect, devSize)
    ensures LayoutOf(b, bsect, devSize).fatbase == bsect + LdWord(b, BPB_RSVD_SEC_CNT)
    ensures LayoutOf(b, bsect, devSize).OutsideFats(bsect + 1) <==> LdWord(b, BPB_RSVD_SEC_CNT) >= 2
  {
    hide LdWord, LdDword, RunLength, Clusters, Count, Wrap32;
    WordRange(b, BPB_RSVD_SEC_CNT);
    WordRange(b, BPB_ROOT_ENT_CNT);
    Sums32(bsect, LdWord(b, BPB_RSVD_SEC_CNT), LayoutOf(b, bsect, devSize).FatArea(), LdWord(b, BPB_ROOT_ENT_CNT) / 16);
    MountLayout(b, bsect, devSize);
    TableNotEmpty(LayoutOf(b, bsect, devSize));
  }

  /** In the bytes between its signatures the FSInfo sector has zeros. */
  lemma FsInfoBlank(free: dword, last: dword, o: nat)
    requires (4 <= o && o + 4 <= 484) || (496 <= o && o + 4 <= 510)
    ensures LdDword(FsInfo(free, last), o) == 0
  {
    var s0: Sector := seq(SECTOR_SIZE, _ => 0);
    assert LdDword(s0, o) == 0;
    var s1 := Patch(s0, 510, WordBytes(0xAA55));
    var s2 := Patch(s1, 0, DwordBytes(0x41615252));
    var s3 := Patch(s2, 484, DwordBytes(0x61417272));
    var s4 := Patch(s3, 488, DwordBytes(free));
    hide LdWord, LdDword, Patch, WordBytes, DwordBytes;
    DwordKept(s0, o, 510, WordBytes(0xAA55));
    DwordKept(s1, o, 0, DwordBytes(0x41615252));
    DwordKept(s2, o, 484, DwordBytes(0x61417272));
    DwordKept(s3, o, 488, DwordBytes(free));
    DwordKept(s4, o, 492, DwordBytes(last));
  }

  /** Over the first sector of the table, FSInfo makes the clusters from 2 to 120 free, whoever owns them. */
  lemma FsInfoFrees(g: Geo, vol: seq<Sector>, free: dword, last: dword, c: nat)
    requires IsVolume(g, vol) && g.fsType.FAT32? && g.volbase + 1 == g.fatbase && 2 <= c < 121 && c < g.nFatent
    requires g.fatbase < |vol| && vol[g.fatbase] == FsInfo(free, last)
    ensures Fat(g, vol)[c] == 0
  {
    hide LdDword, Entry, FsInfo, Geo.Valid;
    EntryFromSector(g, vol, c);
    FsInfoBlank(free, last, c * 4);
  }

  /** A boot record of a FAT32 volume of 66000 clusters with one table, one reserved sector, and FSInfo announced. */
  predicate OneReserved(b: Sector) {
    && b[11] == 0 && b[12] == 2 && b[13] == 1 && b[14] == 1 && b[15] == 0 && b[16] == 1 && b[17] == 0 && b[18] == 0
    && b[19] == 0 && b[20] == 0 && b[22] == 0 && b[23] == 0
    && b[32] == 0xD5 && b[33] == 0x03 && b[34] == 0x01 && b[35] == 0 && b[36] == 0x04 && b[37] == 0x02 && b[38] == 0
    && b[39] == 0 && b[42] == 0 && b[43] == 0 && b[48] == 1 && b[49] == 0
  }

  lemma OneReservedFields(b: Sector)
    requires OneReserved(b)
    ensures FieldsFit(b) && SystemSectors(b) == 517 && TotalSectors(b) == 66517 && b[BPB_SEC_PER_CLUS] == 1
    ensures LdWord(b, BPB_RSVD_SEC_CNT) == 1 && LdWord(b, BPB_ROOT_ENT_CNT) == 0 && LdWord(b, BPB_FS_VER_32) == 0
    ensures LdWord(b, BPB_FS_INFO_32) == 1 && Count(b, BPB_FAT_SZ_16, BPB_FAT_SZ_32) == 516
  {
  }

  /** It is accepted, and its FSInfo sector is the first one of the table. */
  lemma OneReservedMounts(b: Sector)
    requires OneReserved(b)
    ensures Mountable(b) && UsesFsInfo(b) && Fits(b, 0, 66517) && LayoutOf(b, 0, 66517).fsType.FAT32?
    ensures LayoutOf(b, 0, 66517).volbase + 1 == LayoutOf(b, 0, 66517).fatbase && Clusters(b) == 66000
  {
    hide LdWord, LdDword, RunLength, Count, SystemSectors, TotalSectors, OneReserved;
    OneReservedFields(b);
    assert Clusters(b) == 66000;
    hide Clusters;
    RunLengthIsProduct(1, 66000);
    MountLayout(b, 0, 66517);
  }

  lemma OneReservedExists() returns (b: Sector)
    ensures OneReserved(b)
  {
    b := seq(SECTOR_SIZE, i => if i == 12 || i == 37 then 2 else if i == 32 then 0xD5 else if i == 33 then 3
                               else if i == 36 then 4 else if i in {13, 14, 16, 34, 48} then 1 else 0);
  }

  /**
    sync_fs on a volume with one reserved sector: when FSInfo is out of date, it
    is written over the table, and the clusters 2 to 120 are free, whoever owned
    them.
    */
  method TableLost(fs: Volume)
    requires fs.Consistent() && fs.g.fsType.FAT32? && fs.g.volbase + 1 == fs.g.fatbase && !fs.fsiOff && fs.fsiDirty
    modifies fs`disk, fs`wflag, fs`winsect, fs`fsiDirty, fs.win
    ensures fs.Attached() && fs.disk == fs.Vol()
    ensures forall c: nat :: 2 <= c < 121 && c < fs.g.nFatent ==> fs.FatSeq()[c] == 0
  {
    hide Volume.Vol, FsInfo, Volume.Consistent, Volume.Valid;
    fs.SyncFs();
    forall c: nat | 2 <= c < 121 && c < fs.g.nFatent
      ensures fs.FatSeq()[c] == 0
    {
      FsInfoFrees(fs.g, fs.Vol(), fs.freeClst, fs.lastClst, c);
    }
  }

  lemma TableNotEmpty(g: Geo)
    requires g.Valid()
    ensures g.fsize > 0
  {
  }

  /** The FSInfo part of mount_volume: counters and whether FSInfo will be updated. */
  method ReadFsInfo(b: Sector, fmt: FatType, disk: seq<Sector>, bsect: dword)
    returns (off: bool, wins: nat, free: dword, last: dword)
    requires FieldsFit(b) && fmt == TypeOf(Clusters(b)) && bsect < |disk|
    ensures off == !(UsesFsInfo(b) && bsect + 1 < |disk|) && wins == (if off then bsect else bsect + 1)
    ensures if !off && IsFsInfo(disk[bsect + 1]) then
        free == LdDword(disk[bsect + 1], 488) && last == LdDword(disk[bsect + 1], 492)
            else free == UNKNOWN && last == UNKNOWN
  {
    hide LdWord, Clusters;
    off, wins, free, last := true, bsect, UNKNOWN, UNKNOWN;
    if fmt == FAT32 && LdWord(b, BPB_FS_INFO_32) == 1 && bsect + 1 < |disk| {
      off, wins := false, bsect + 1;
      var win := disk[bsect + 1];
      if IsFsInfo(win) {
        free, last := LdDword(win, 488), LdDword(win, 492);
      }
    }
  }

  /** mount_volume, once the sector of the boot record is known. */
  method MountVolume(disk: seq<Sector>, bsect: dword) returns (res: Result, fs: Volume?)
    requires bsect < |disk|
    ensures res == (if Mountable(disk[bsect]) then Ok else NoFilesystem) && (res == Ok <==> fs != null)
    ensures fs != null ==>
      && fresh(fs) && fresh(fs.win) && fs.disk == disk && fs.g == LayoutOf(disk[bsect], bsect, |disk|)
      && fs.fsiOff == !(UsesFsInfo(disk[bsect]) && bsect + 1 < |disk|)
      && (if !fs.fsiOff && IsFsInfo(disk[bsect + 1]) then
            fs.freeClst == LdDword(disk[bsect + 1], 488) && fs.lastClst == LdDword(disk[bsect + 1], 492)
          else fs.freeClst == UNKNOWN && fs.lastClst == UNKNOWN)
    ensures fs != null ==>
      && (fs.g.fsType.FAT12? <==> fs.g.nFatent <= 0xFF5 + 2) && (fs.g.fsType.FAT32? <==> fs.g.nFatent > 0xFFF5 + 2)
      && (fs.g.fsType.FAT32? ==> fs.g.dirbase == LdDword(disk[bsect], 44))
    ensures fs != null && Fits(disk[bsect], bsect, |disk|) ==>
      && IsVolume(fs.g, disk) && (Mirrored(fs.g, disk) ==> fs.Consistent() && fs.Vol() == disk)
      && (Mirrored(fs.g, disk) && (fs.fsiOff || LdWord(disk[bsect], BPB_RSVD_SEC_CNT) >= 2) ==> fs.Valid())
  {
    hide LdWord, LdDword, Clusters, Fits, IsFsInfo, Volume.Valid, Volume.Vol, Mirrored;
    var b := disk[bsect];
    var g;
    res, g := AnalyseBpb(b, bsect, |disk|);
    fs := null;
    if res == Ok {
      var off, wins, free, last := ReadFsInfo(b, g.fsType, disk, bsect);
      if Fits(b, bsect, |disk|) {
        MountLayout(b, bsect, |disk|);
        FsInfoMissesTable(b, bsect, |disk|);
      }
      fs := new Volume(g, off, disk, wins, free, last);
    }
  }

  /** sync_fs and then a fresh mount: the free count and the last cluster come back. */
  method SyncThenMount(fs: Volume) returns (res: Result, fs2: Volume?)
    requires fs.Valid() && fs.g.fsType.FAT32? && !fs.fsiOff && fs.fsiDirty
    requires Mountable(fs.Vol()[fs.g.volbase]) && UsesFsInfo(fs.Vol()[fs.g.volbase])
    modifies fs`disk, fs`wflag, fs`winsect, fs`fsiDirty, fs.win
    ensures res == Ok && fs2 != null && fresh(fs2) && fs2.disk == fs.disk
    ensures fs2.freeClst == fs.freeClst && fs2.lastClst == fs.lastClst
  {
    hide LdWord, LdDword, IsFsInfo, Volume.Vol, FsInfo, Mountable, UsesFsInfo, Volume.Consistent, Mirrored;
    ghost var vol := fs.Vol();
    fs.SyncFs();
    assert fs.disk == vol[fs.g.volbase + 1 := FsInfo(fs.freeClst, fs.lastClst)];
    FsInfoReadsBack(fs.freeClst, fs.lastClst);
    assert fs.disk[fs.g.volbase + 1] == FsInfo(fs.freeClst, fs.lastClst);
    assert fs.disk[fs.g.volbase] == vol[fs.g.volbase];
    res, fs2 := MountVolume(fs.disk, fs.g.volbase);
  }
}
