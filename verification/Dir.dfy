/**
  Directory objects (DIR): a position in a directory table, and the operations
  that walk, search and change the table through the window.
  */
module Directories {
  import opened Bytes
  import opened Geometry
  import opened FatTable
  import opened FileSystem
  import opened Chains
  import opened Allocation
  import opened FileData
  import opened Files
  import opened Entries
  import opened Directory
  import opened DirTable

  const MAX_DIR := 0x20_0000

  /** dir_clear: fill a cluster with zeros; the window is left on its first sector. */
  method DirClear(fs: Volume, clst: nat)
    requires fs.Valid() && fs.g.InRange(clst)
    modifies fs`disk, fs`wflag, fs`winsect, fs.win
    ensures fs.Valid() && fs.FatSeq() == old(fs.FatSeq())
    ensures fs.winsect == fs.g.FirstSector(clst)
    ensures fs.g.database <= fs.g.FirstSector(clst) && fs.g.FirstSector(clst) + fs.g.csize <= fs.g.devSize
    ensures fs.Vol() == Cleared(old(fs.Vol()), fs.g.FirstSector(clst), fs.g.csize)
  {
    hide Fat, Mirrored;
    ghost var vol := fs.Vol();
    ClusterRuns(fs.g, clst, clst);
    fs.SyncWindow();
    var sect := Clst2Sect(fs.g, clst);
    fs.winsect := sect;
    ClearAll(fs.win);
    ClearRun(fs, sect);
    ClearedFacts(fs.g, vol, sect, fs.g.csize);
  }

  /** The cleared window goes to every sector of the cluster. */
  method ClearRun(fs: Volume, sect: nat)
    requires fs.win.Length == SECTOR_SIZE && fs.win[..] == ZERO_SECTOR
    requires sect + fs.g.csize <= |fs.disk|
    modifies fs`disk
    ensures fs.disk == Cleared(old(fs.disk), sect, fs.g.csize)
  {
    var n := 0;
    while n < fs.g.csize
      invariant 0 <= n <= fs.g.csize && fs.disk == Cleared(old(fs.disk), sect, n)
    {
      fs.disk := fs.disk[sect + n := fs.win[..]];
      n := n + 1;
    }
  }

  ghost function Cleared(vol: seq<Sector>, s: nat, n: nat): (r: seq<Sector>)
    requires s + n <= |vol|
    ensures |r| == |vol|
  {
    seq(|vol|, t requires 0 <= t < |vol| => if s <= t < s + n then ZERO_SECTOR else vol[t])
  }

  lemma ClearedFacts(g: Geo, vol: seq<Sector>, s: nat, n: nat)
    requires IsVolume(g, vol) && g.database <= s && s + n <= g.devSize
    ensures IsVolume(g, Cleared(vol, s, n)) && Fat(g, Cleared(vol, s, n)) == Fat(g, vol)
    ensures Mirrored(g, vol) ==> Mirrored(g, Cleared(vol, s, n))
  {
    FatFrame(g, vol, Cleared(vol, s, n));
  }

  class Dir {
    const fs: Volume
    var sclust: nat            // start cluster of the table, 0: root directory
    var attr: byte             // attributes of the entry found last
    var dptr: nat              // current offset
    var clust: nat             // current cluster, 0: static table
    var sect: nat              // current sector, 0: the walk has ended
    var dir: nat               // offset of the current entry in the window
    var fn: Name11             // name in directory form
    ghost var chain: seq<nat>  // clusters of the table

    /** A directory object for the table that starts at sclust. */
    constructor (fs: Volume, sclust: nat, name: Name11, ghost ch: seq<nat>)
      requires fs.Valid() && DirChain(fs.g, fs.FatSeq(), sclust, ch)
      ensures this.fs == fs && this.sclust == sclust && fn == name && chain == ch && Valid()
    {
      this.fs := fs;
      this.sclust, fn, chain := sclust, name, ch;
      attr, dptr, clust, sect, dir := 0, 0, 0, 0, 0;
    }

    ghost predicate Valid()
      reads `sclust, `chain, fs`disk, fs`winsect, fs`wflag, fs.win
      ensures Valid() ==> fs.Valid() && InArea(fs.g, chain) && OnVolume(fs.Vol(), Tbl())
    {
      && fs.Valid() && InArea(fs.g, chain) && DirChain(fs.g, fs.FatSeq(), sclust, chain)
      && (TableSectors(fs.g, fs.FatSeq(), sclust, chain); true)
    }

    ghost function Tbl(): seq<nat>
      requires InArea(fs.g, chain)
      reads `sclust, `chain
    {
      Table(fs.g, sclust, chain)
    }

    lemma TblFacts()
      requires Valid()
      ensures AllDistinct(Tbl()) && |Tbl()| > 0 && SlotCount(Tbl()) > 0 && fs.g.csize > 0 && Holds(fs.FatSeq(), chain)
      ensures forall s :: s in Tbl() ==>
        s < fs.g.devSize && fs.g.fatbase + fs.g.FatArea() <= s && fs.g.OutsideFats(s) && s != 0
    {
      hide Sectors, Fat, Table;
      TableSectors(fs.g, fs.FatSeq(), sclust, chain);
    }

    lemma Linked()
      requires Valid()
      ensures DirChain(fs.g, fs.FatSeq(), sclust, chain) && IsVolume(fs.g, fs.Vol())
    {
    }

    /** What makes a directory object valid, and what its slots are. */
    lemma Relinked()
      requires fs.Valid() && InArea(fs.g, chain) && DirChain(fs.g, fs.FatSeq(), sclust, chain)
      ensures Valid() && Content() == Slots(fs.Vol(), Tbl())
    {
    }

    /** The slots of the directory on the logical volume. */
    ghost function Content(): (slots: seq<Entry32>)
      requires Valid()
      reads `sclust, `chain, fs`disk, fs`winsect, fs`wflag, fs.win
      ensures |slots| == SlotCount(Tbl()) <= MAX_SLOTS
    {
      Slots(fs.Vol(), Tbl())
    }

    /** The sector with number k of the table is known. */
    ghost predicate OnTable(k: nat)
      requires InArea(fs.g, chain)
      reads `sclust, `chain, `clust, `sect
    {
      && fs.g.csize > 0 && k < |Tbl()| && sect == Tbl()[k]
      && (if IsStatic(fs.g, sclust) then clust == 0
          else CluIdx(fs.g.csize, k) < |chain| && clust == chain[CluIdx(fs.g.csize, k)])
    }

    /** The object stands at slot i. */
    ghost predicate At(i: nat)
      requires InArea(fs.g, chain)
      reads `sclust, `chain, `dptr, `clust, `sect, `dir
      ensures At(i) ==> i < SlotCount(Tbl()) && i < MAX_SLOTS
    {
      i < SlotCount(Tbl()) && dptr == i * ENTRY_SIZE && dir == dptr % SECTOR_SIZE && OnTable(i / SLOTS_PER_SECTOR)
    }

    /** The window is in the first copy of the allocation table or in the directory. */
    ghost predicate Inside()
      requires InArea(fs.g, chain)
      reads `sclust, `chain, fs`winsect
    {
      fs.g.InFat1(fs.winsect) || fs.winsect in Tbl()
    }

    /**
      Nothing but the allocation table, the sectors of this directory, those of added
      clusters and FSInfo has changed.
      */
    twostate predicate OnlyOwnChanged(added: seq<nat>)
      requires fs.Attached() && old(fs.Attached())
      reads `sclust, `chain, fs`disk, fs`winsect, fs`wflag, fs.win
    {
      InArea(fs.g, chain) && InArea(fs.g, added) && fs.ChangedOnly(Tbl() + Sectors(fs.g, added))
    }

    twostate lemma OwnChanged()
      requires Valid() && old(fs.Attached()) && OnlyTable(fs.g, old(fs.Vol()), fs.Vol(), Tbl())
      requires fs.winsect == old(fs.winsect) || Inside()
      ensures OnlyOwnChanged([])
    {
      hide Volume.Valid, Volume.Vol, Fat, Sectors, DirChain, Table;
    }

    /** get_fat on a cluster of the table. */
    method NextLink(c: nat, ghost j: nat) returns (clst: nat)
      requires Valid() && j < |chain| && c == chain[j]
      modifies fs`disk, fs`wflag, fs`winsect, fs.win
      ensures Valid() && fs.Vol() == old(fs.Vol())
      ensures if j + 1 < |chain| then clst == chain[j + 1] && fs.g.InRange(clst) else clst >= fs.g.nFatent
      ensures fs.winsect == old(fs.winsect) || fs.g.InFat1(fs.winsect)
      ensures fs.wflag ==> old(fs.wflag)
    {
      hide Volume.Valid, Volume.Vol, Fat, IsChain;
      ChainEntry(fs.FatSeq(), chain, j);
      clst := fs.GetFat(c);
    }

    /** dir_sdi in a cluster chain: follow it to the offset. */
    method SdiChain(ofs: nat) returns (res: Result)
      requires Valid() && !IsStatic(fs.g, sclust) && ofs % ENTRY_SIZE == 0 && ofs < MAX_DIR && dptr == ofs
      modifies fs`disk, fs`wflag, fs`winsect, fs.win, `clust, `sect, `dir
      ensures Valid() && fs.Vol() == old(fs.Vol())
      ensures res == if ofs / ENTRY_SIZE < SlotCount(Tbl()) then Ok else IntErr
      ensures res == Ok ==> At(ofs / ENTRY_SIZE)
      ensures fs.winsect == old(fs.winsect) || Inside()
      ensures fs.wflag ==> old(fs.wflag)
    {
      hide Volume.Valid, Volume.Vol, Fat, IsChain, Sectors, CluIdx, CluOfs, Bound, SlotCount;
      ghost var vol := fs.Vol();
      TblFacts();
      var clst := StartCluster(fs.g, sclust);
      var csz := fs.g.csize * SECTOR_SIZE;
      var rest: nat := ofs;
      ghost var j := 0;
      BoundNext(fs.g.csize, 0);
      while rest >= csz
        invariant Valid() && fs.Vol() == vol && (fs.wflag ==> old(fs.wflag))
        invariant fs.winsect == old(fs.winsect) || Inside()
        invariant j < |chain| && clst == chain[j] && ofs == Bound(fs.g.csize, j) + rest
        decreases rest
      {
        BoundNext(fs.g.csize, j);
        clst := NextLink(clst, j);
        if clst < 2 || clst >= fs.g.nFatent {
          BeyondTable(fs.g, chain, ofs, j + 1);
          return IntErr;
        }
        rest, j := rest - csz, j + 1;
      }
      BoundNext(fs.g.csize, j);
      SlotPlace(fs.g, chain, j, ofs);
      sect := Clst2Sect(fs.g, clst);
      clust := clst;
      sect := sect + rest / SECTOR_SIZE;
      dir := rest % SECTOR_SIZE;
      return Ok;
    }

    /** dir_sdi in the static table. */
    method SdiStatic(ofs: nat) returns (res: Result)
      requires Valid() && IsStatic(fs.g, sclust) && ofs % ENTRY_SIZE == 0 && ofs < MAX_DIR && dptr == ofs
      modifies `clust, `sect, `dir
      ensures Valid()
      ensures res == if ofs / ENTRY_SIZE < SlotCount(Tbl()) then Ok else IntErr
      ensures res == Ok ==> At(ofs / ENTRY_SIZE)
    {
      hide Volume.Valid, Volume.Vol, Fat, IsChain, Sectors, CluIdx;
      StaticPlace(fs.g, ofs);
      if ofs / ENTRY_SIZE >= fs.g.nRootdir {
        return IntErr;
      }
      sect := fs.g.dirbase;
      clust := 0;
      sect := sect + ofs / SECTOR_SIZE;
      dir := ofs % SECTOR_SIZE;
      return Ok;
    }

    /** dir_sdi: stand at an offset, an error if it has no slot. */
    method Sdi(ofs: nat) returns (res: Result)
      requires Valid()
      modifies fs`disk, fs`wflag, fs`winsect, fs.win, `dptr, `clust, `sect, `dir
      ensures Valid() && fs.Vol() == old(fs.Vol())
      ensures res == if ofs % ENTRY_SIZE == 0 && ofs / ENTRY_SIZE < SlotCount(Tbl()) then Ok else IntErr
      ensures res == Ok ==> At(ofs / ENTRY_SIZE)
      ensures ofs == 0 && sclust == 0 && fs.g.fsType.FAT32? ==>
        && res == Ok && clust == fs.g.dirbase >= 2
        && sect == fs.g.database + fs.g.csize * (fs.g.dirbase - 2)
      ensures ofs == 0 && sclust == 0 && !fs.g.fsType.FAT32? ==> res == Ok && clust == 0 && sect == fs.g.dirbase
      ensures fs.winsect == old(fs.winsect) || Inside()
      ensures fs.wflag ==> old(fs.wflag)
    {
      hide Volume.Valid, Volume.Vol, Fat, IsChain, Sectors, CluIdx;
      TblFacts();
      if ofs >= MAX_DIR || ofs % ENTRY_SIZE != 0 {
        return IntErr;
      }
      dptr := ofs;
      if IsStatic(fs.g, sclust) {
        res := SdiStatic(ofs);
      } else {
        res := SdiChain(ofs);
      }
      if res == Ok && ofs == 0 {
        PlaceByNumbers(this, 0);
      }
    }

    /** Since vol, when the chain was ch, the table only grew by cleared slots, and nothing outside it changed. */
    ghost predicate GrownFrom(vol: seq<Sector>, ch: seq<nat>)
      requires Valid()
      reads `sclust, `chain, fs`disk, fs`winsect, fs`wflag, fs.win
    {
      TableGrown(fs.g, sclust, vol, ch, fs.Vol(), chain)
    }

    /** The logical volume and the allocation hints are as before. */
    twostate predicate Unallocated()
      requires Valid() && old(Valid())
      reads `sclust, `chain, fs
      reads fs.win
    {
      && fs.Vol() == old(fs.Vol())
      && fs.freeClst == old(fs.freeClst) && fs.lastClst == old(fs.lastClst) && fs.fsiDirty == old(fs.fsiDirty)
      && (fs.wflag ==> old(fs.wflag))
    }

    lemma GrownSelf()
      requires Valid()
      ensures GrownFrom(fs.Vol(), chain) && Extended(fs.FatSeq(), chain, fs.FatSeq(), chain)
    {
      hide Fat, Sectors, Slots, Table, IsChain;
      TblFacts();
    }

    /** The table gets one more cluster, cleared. */
    method StretchTable() returns (clst: nat)
      requires Valid() && !IsStatic(fs.g, sclust) && clust == chain[|chain| - 1]
      modifies fs`disk, fs`wflag, fs`winsect, fs`freeClst, fs`lastClst, fs`fsiDirty, fs.win, `chain
      ensures Valid() && GrownFrom(old(fs.Vol()), old(chain))
      ensures Extended(old(fs.FatSeq()), old(chain), fs.FatSeq(), chain)
      ensures clst < 2 ==> chain == old(chain) && Unallocated()
      ensures clst == 0 ==> fs.freeClst == 0 || Full(fs.FatSeq())
      ensures clst == 1 ==> Damaged(fs.FatSeq())
      ensures clst >= 2 ==> chain == old(chain) + [clst] && fs.g.InRange(clst)
      ensures old(CountRight(fs.freeClst, fs.FatSeq())) ==> CountRight(fs.freeClst, fs.FatSeq())
      ensures fs.winsect == old(fs.winsect) || Inside()
    {
      hide Volume.Valid, Volume.Vol, Fat, IsChain, Full, CountRight, Sectors, Cleared, FirstChoice, Slots, Extended,
           Grown;
      ghost var fat, vol, ch := fs.FatSeq(), fs.Vol(), chain;
      TblFacts();
      ChainEntry(fat, chain, |chain| - 1);
      GrownSelf();
      clst := CreateChain(fs, clust);
      if clst >= 2 {
        EndMarkEnds(fs.g, 0);
        ExtendByOne(fat, chain, clst, EndMark(fs.g.fsType));
        ghost var vol1 := fs.Vol();
        DirClear(fs, clst);
        chain := chain + [clst];
        ExtendedHolds(fat, ch, fs.FatSeq(), chain);
        TableStretched(fs.g, vol, vol1, fs.Vol(), sclust, ch, clst);
      }
    }

    /** The next cluster of the table, from the chain or by stretching it. */
    method LinkOrStretch(stretch: bool, ghost j: nat) returns (res: Result, clst: nat)
      requires Valid() && !IsStatic(fs.g, sclust) && j < |chain| && clust == chain[j]
      modifies fs`disk, fs`wflag, fs`winsect, fs`freeClst, fs`lastClst, fs`fsiDirty, fs.win, `chain, `sect
      ensures Valid() && GrownFrom(old(fs.Vol()), old(chain))
      ensures Extended(old(fs.FatSeq()), old(chain), fs.FatSeq(), chain)
      ensures res == Ok ==> j + 1 < |chain| && clst == chain[j + 1] && fs.g.InRange(clst)
      ensures res != Ok ==> chain == old(chain) && j + 1 == |chain| && StretchRefused(res, stretch)
      ensures !stretch ==> chain == old(chain) && (res == Ok || res == NoFile)
      ensures res == NoFile ==> sect == 0
      ensures chain == old(chain) ==> Unallocated()
      ensures j + 1 < |old(chain)| ==> chain == old(chain)
      ensures old(CountRight(fs.freeClst, fs.FatSeq())) ==> CountRight(fs.freeClst, fs.FatSeq())
      ensures fs.winsect == old(fs.winsect) || Inside()
    {
      hide Volume.Valid, Volume.Vol, Fat, IsChain, Full, CountRight, Sectors, Extended, TableGrown, SlotCount,
           DirChain;
      clst := NextLink(clust, j);
      GrownSelf();
      if clst <= 1 {
        return IntErr, clst;
      }
      if clst >= fs.g.nFatent {
        if !stretch {
          sect := 0;
          return NoFile, clst;
        }
        clst := StretchTable();
        if clst == 0 {
          return Denied, clst;
        }
        if clst == 1 {
          return IntErr, clst;
        }
      }
      res := Ok;
    }

    /** dir_next at a cluster boundary. */
    method NextCluster(stretch: bool, ghost k: nat) returns (res: Result)
      requires Valid() && !IsStatic(fs.g, sclust) && fs.g.csize > 0 && CluOfs(fs.g.csize, k + 1) == 0 && k < |Tbl()|
      requires CluIdx(fs.g.csize, k) < |chain| && clust == chain[CluIdx(fs.g.csize, k)]
      modifies fs`disk, fs`wflag, fs`winsect, fs`freeClst, fs`lastClst, fs`fsiDirty, fs.win, `chain, `clust, `sect
      ensures Valid() && GrownFrom(old(fs.Vol()), old(chain))
      ensures Extended(old(fs.FatSeq()), old(chain), fs.FatSeq(), chain)
      ensures res == Ok ==> OnTable(k + 1)
      ensures res != Ok ==> chain == old(chain) && |Tbl()| == k + 1 && StretchRefused(res, stretch)
      ensures !stretch ==> chain == old(chain) && (res == Ok || res == NoFile)
      ensures res == NoFile ==> sect == 0
      ensures chain == old(chain) ==> Unallocated()
      ensures k + 1 < old(|Tbl()|) ==> chain == old(chain)
      ensures old(CountRight(fs.freeClst, fs.FatSeq())) ==> CountRight(fs.freeClst, fs.FatSeq())
      ensures fs.winsect == old(fs.winsect) || Inside()
    {
      hide Volume.Valid, Volume.Vol, Fat, IsChain, Full, CountRight, Sectors, Extended, TableGrown, CluIdx, CluOfs,
           SlotCount, DirChain, GrownFrom, StretchRefused, Unallocated, Valid, RunLength, Geo.FirstSector;
      StepOver(fs.g, chain, k);
      ghost var j := CluIdx(fs.g.csize, k);
      var clst;
      res, clst := LinkOrStretch(stretch, j);
      if res == Ok {
        clust := clst;
        sect := Clst2Sect(fs.g, clst);
        SectorsAt(fs.g, chain, j + 1, 0);
      }
    }

    /** dir_next at a sector boundary. */
    method NextSector(stretch: bool, ofs: nat, ghost k: nat) returns (res: Result)
      requires Valid() && OnTable(k) && ofs == (k + 1) * SECTOR_SIZE && ofs < MAX_DIR
      modifies fs`disk, fs`wflag, fs`winsect, fs`freeClst, fs`lastClst, fs`fsiDirty, fs.win, `chain, `clust, `sect
      ensures Valid() && GrownFrom(old(fs.Vol()), old(chain))
      ensures Extended(old(fs.FatSeq()), old(chain), fs.FatSeq(), chain)
      ensures res == Ok ==> OnTable(k + 1)
      ensures res != Ok ==> chain == old(chain) && |Tbl()| == k + 1 && StretchRefused(res, stretch)
      ensures !stretch ==> chain == old(chain) && (res == Ok || res == NoFile)
      ensures res == NoFile ==> sect == 0
      ensures chain == old(chain) ==> Unallocated()
      ensures k + 1 < old(|Tbl()|) ==> chain == old(chain)
      ensures old(CountRight(fs.freeClst, fs.FatSeq())) ==> CountRight(fs.freeClst, fs.FatSeq())
      ensures fs.winsect == old(fs.winsect) || Inside()
    {
      hide Volume.Valid, Volume.Vol, Fat, IsChain, Full, CountRight, Sectors, Extended, GrownFrom, CluIdx, CluOfs;
      GrownSelf();
      sect := sect + 1;
      if clust == 0 {
        StaticEnd(fs.g, k + 1);
        if ofs / ENTRY_SIZE >= fs.g.nRootdir {
          sect := 0;
          return NoFile;
        }
      } else {
        OffsetIs(fs.g.csize, k + 1);
        if ofs / SECTOR_SIZE % fs.g.csize == 0 {
          res := NextCluster(stretch, k);
          return;
        }
        StepInside(fs.g, chain, k);
      }
      res := Ok;
    }

    /** What moving on by one slot may do: at most stretch the table. */
    ghost predicate MovedOn(res: Result, stretch: bool, i: nat, ch: seq<nat>)
      requires Valid()
      reads `sclust, `chain, `dptr, `clust, `sect, `dir, fs`disk, fs`winsect, fs`wflag, fs`freeClst, fs.win
    {
      && (res == Ok ==> At(i + 1))
      && (res != Ok ==> chain == ch && i + 1 == SlotCount(Tbl()) && StretchRefused(res, stretch))
      && (res == NoFile ==> sect == 0)
      && (!stretch ==> chain == ch && (res == Ok || res == NoFile))
    }

    /** dir_next: move on to the next slot. */
    method Next(stretch: bool, ghost i: nat) returns (res: Result)
      requires Valid() && At(i)
      modifies fs`disk, fs`wflag, fs`winsect, fs`freeClst, fs`lastClst, fs`fsiDirty, fs.win
      modifies `chain, `dptr, `clust, `sect, `dir
      ensures Valid() && GrownFrom(old(fs.Vol()), old(chain)) && MovedOn(res, stretch, i, old(chain))
      ensures Extended(old(fs.FatSeq()), old(chain), fs.FatSeq(), chain)
      ensures chain == old(chain) ==> Unallocated()
      ensures i + 1 < old(SlotCount(Tbl())) ==> chain == old(chain)
      ensures res == Ok ==> chain == old(chain) || Content()[i + 1][0] == 0
      ensures old(CountRight(fs.freeClst, fs.FatSeq())) ==> CountRight(fs.freeClst, fs.FatSeq())
      ensures fs.winsect == old(fs.winsect) || Inside()
    {
      hide Volume.Valid, Volume.Vol, Fat, IsChain, Full, CountRight, Sectors, Extended, TableGrown, CluIdx,
           DirChain, Table;
      GrownSelf();
      TblFacts();
      ghost var k := i / SLOTS_PER_SECTOR;
      assert sect in Tbl();
      var ofs := dptr + ENTRY_SIZE;
      NextSlot(i, ofs);
      if ofs >= MAX_DIR {
        sect := 0;
      }
      if sect == 0 {
        return NoFile;
      }
      if ofs % SECTOR_SIZE == 0 {
        res := NextSector(stretch, ofs, k);
        if res != Ok {
          return;
        }
      }
      NewSlotIsZero(fs.g, sclust, old(fs.Vol()), old(chain), fs.Vol(), chain, i + 1);
      dptr := ofs;
      dir := ofs % SECTOR_SIZE;
      res := Ok;
    }

    /** Why the walk ended: no stretching asked for or possible, disk full, or damaged table. */
    ghost predicate StretchRefused(res: Result, stretch: bool)
      requires Valid()
      reads `sclust, `chain, fs`disk, fs`winsect, fs`wflag, fs`freeClst, fs.win
    {
      match res
      case NoFile => !stretch || IsStatic(fs.g, sclust) || SlotCount(Tbl()) == MAX_SLOTS
      case Denied => stretch && (fs.freeClst == 0 || Full(fs.FatSeq()))
      case IntErr => stretch && Damaged(fs.FatSeq())
      case _ => false
    }

    /** With the window on the current sector, dir points at the current slot. */
    lemma WindowSlot(i: nat)
      requires Valid() && At(i) && fs.win[..] == fs.Vol()[sect]
      ensures dir + ENTRY_SIZE <= SECTOR_SIZE && dir == i % SLOTS_PER_SECTOR * ENTRY_SIZE
      ensures fs.win[dir..dir + ENTRY_SIZE] == Content()[i]
    {
      hide Volume.Valid, Volume.Vol, Fat, DirChain, Table, CluIdx;
      SlotOffset(i);
    }

    /** The current sector is one of the table. */
    lemma OnSector(i: nat)
      requires Valid() && At(i)
      ensures sect in Tbl() && sect != 0 && sect < fs.g.devSize && fs.g.fatbase + fs.g.FatArea() <= sect
    {
      hide Volume.Valid, Volume.Vol, Fat, DirChain, Table, CluIdx;
      TblFacts();
    }

    /** The window is moved to the current slot. */
    method ShowSlot(ghost i: nat) returns (e: Entry32)
      requires Valid() && At(i)
      modifies fs`disk, fs`wflag, fs`winsect, fs.win
      ensures Valid() && Unallocated() && fs.winsect == sect && Inside()
      ensures dir + ENTRY_SIZE <= SECTOR_SIZE && fs.win[dir..dir + ENTRY_SIZE] == e == Content()[i]
    {
      hide Volume.Valid, Volume.Vol, Fat, DirChain, Table, Slots;
      TblFacts();
      assert sect in Tbl();
      fs.MoveWindow(sect);
      WindowSlot(i);
      e := fs.win[dir..dir + ENTRY_SIZE];
    }

    /** dir_find: the answer of the lookup, with the object and the window left on the slot. */
    method Find() returns (res: Result, ghost i: nat)
      requires Valid()
      modifies fs`disk, fs`wflag, fs`winsect, fs`freeClst, fs`lastClst, fs`fsiDirty, fs.win
      modifies `chain, `attr, `dptr, `clust, `sect, `dir
      ensures Valid() && chain == old(chain) && Unallocated()
      ensures res == if Directory.Find(Content(), fn, 0).Some? then Ok else NoFile
      ensures res == Ok ==> Directory.Find(Content(), fn, 0) == Some(i) && At(i) && fs.winsect == sect
      ensures res == Ok ==> attr == Content()[i][DIR_ATTR] % 0x40
      ensures fs.winsect == old(fs.winsect) || Inside()
    {
      hide Volume.Valid, Volume.Vol, Fat, DirChain, Table, OnTable, Slots, TableGrown, CountRight, StretchRefused,
           Valid, HasBit, IsVolume, Geo.Valid, GrownFrom, Extended, At, Inside, Full, Damaged,
           Sectors, InArea, OnlyTable;
      ghost var slots := Content();
      TblFacts();
      res := Sdi(0);
      i := 0;
      while true
        invariant Valid() && chain == old(chain) && Unallocated() && Content() == slots && At(i)
        invariant Directory.Find(slots, fn, 0) == Directory.Find(slots, fn, i)
        decreases |slots| - i
      {
        var e := ShowSlot(i);
        if e[0] == 0 {
          return NoFile, i;
        }
        attr := e[DIR_ATTR] % 0x40;
        if !HasBit(e[DIR_ATTR], AM_VOL) && e[..11] == fn {
          return Ok, i;
        }
        res := Next(false, i);
        if res != Ok {
          return;
        }
        i := i + 1;
      }
    }

    /** dir_read: the next entry that is a file or a directory. */
    method ReadItem(ghost i0: nat) returns (res: Result, ghost i: nat)
      requires Valid() && At(i0)
      modifies fs`disk, fs`wflag, fs`winsect, fs`freeClst, fs`lastClst, fs`fsiDirty, fs.win
      modifies `chain, `attr, `dptr, `clust, `sect, `dir
      ensures Valid() && chain == old(chain) && Unallocated()
      ensures res == if FirstVisible(Content(), i0).Some? then Ok else NoFile
      ensures res == Ok ==> FirstVisible(Content(), i0) == Some(i) && At(i) && fs.winsect == sect
      ensures fs.winsect == old(fs.winsect) || Inside()
    {
      hide Volume.Valid, Volume.Vol, Fat, DirChain, Table, OnTable, Slots, TableGrown, CountRight, StretchRefused,
           Visible, Valid, HasBit, IsVolume, Geo.Valid, GrownFrom, Extended, At, Inside;
      ghost var slots := Content();
      i := i0;
      while true
        invariant Valid() && chain == old(chain) && Unallocated() && Content() == slots && At(i)
        invariant FirstVisible(slots, i0) == FirstVisible(slots, i)
        decreases |slots| - i
      {
        var e := ShowSlot(i);
        if e[0] == 0 {
          res := NoFile;
          break;
        }
        attr := e[DIR_ATTR] % 0x40;
        if Visible(e) {
          return Ok, i;
        }
        res := Next(false, i);
        if res != Ok {
          break;
        }
        i := i + 1;
      }
      sect := 0;
    }

    /** sync_fs: the directory is on the device as it is. */
    method SyncVolume()
      requires Valid()
      modifies fs`disk, fs`wflag, fs`winsect, fs`fsiDirty, fs.win
      ensures Valid() && !fs.wflag && fs.disk == fs.Vol()
      ensures fs.FatSeq() == old(fs.FatSeq()) && Content() == old(Content())
      ensures forall s: nat :: s < fs.g.devSize && s != fs.g.volbase + 1 ==> fs.Vol()[s] == old(fs.Vol())[s]
      ensures fs.winsect == old(fs.winsect) || fs.winsect == fs.g.volbase + 1
    {
      hide Volume.Valid, Volume.Vol, Fat, DirChain, Table, Slots, FsInfo;
      ghost var vol := fs.Vol();
      TblFacts();
      FsInfoBeforeFat(fs);
      FsInfoInFront(fs.g);
      fs.SyncFs();
      FatFrame(fs.g, vol, fs.Vol());
      SlotsFrame(vol, fs.Vol(), Tbl());
    }

    /** Why no slot could be had: the table cannot or may not grow, the disk is full, or the table is damaged. */
    ghost predicate RegisterRefused(res: Result)
      requires Valid()
      reads `sclust, `chain, fs`disk, fs`winsect, fs`wflag, fs`freeClst, fs.win
    {
      StretchRefused(res, true) || (res == Denied && StretchRefused(NoFile, true))
    }

    lemma Refused(res: Result)
      requires Valid() && StretchRefused(res, true)
      ensures RegisterRefused(if res == NoFile then Denied else res)
      ensures res == NoFile || res == Denied || res == IntErr
    {
    }

    /** One round of dir_alloc: look at slot i, and move on if it is not free. */
    method TrySlot(ghost i: nat) returns (free: bool, res: Result)
      requires Valid() && At(i)
      modifies fs`disk, fs`wflag, fs`winsect, fs`freeClst, fs`lastClst, fs`fsiDirty, fs.win
      modifies `chain, `dptr, `clust, `sect, `dir
      ensures Valid() && GrownFrom(old(fs.Vol()), old(chain))
      ensures Extended(old(fs.FatSeq()), old(chain), fs.FatSeq(), chain)
      ensures chain == old(chain) ==> Unallocated() && Content() == old(Content())
      ensures if free then chain == old(chain) && At(i) && fs.winsect == sect && IsFree(Content()[i])
              else !IsFree(old(Content())[i]) && MovedOn(res, true, i, old(chain))
      ensures i + 1 < old(SlotCount(Tbl())) ==> chain == old(chain)
      ensures res == Ok && !free ==> chain == old(chain) || Content()[i + 1][0] == 0
      ensures old(CountRight(fs.freeClst, fs.FatSeq())) ==> CountRight(fs.freeClst, fs.FatSeq())
      ensures free || res != Ok ==> Inside()
    {
      hide Volume.Valid, Volume.Vol, Fat, DirChain, Table, OnTable, Slots, TableGrown, CountRight, StretchRefused,
           Extended, Valid, IsVolume, Geo.Valid, At, Inside;
      GrownSelf();
      var e := ShowSlot(i);
      free, res := e[0] == DDEM || e[0] == 0, Ok;
      if !free {
        res := Next(true, i);
      }
    }

    /** dir_alloc for one slot: the first free one, stretching the table when there is none. */
    method Alloc() returns (res: Result, ghost i: nat)
      requires Valid()
      modifies fs`disk, fs`wflag, fs`winsect, fs`freeClst, fs`lastClst, fs`fsiDirty, fs.win
      modifies `chain, `dptr, `clust, `sect, `dir
      ensures Valid() && GrownFrom(old(fs.Vol()), old(chain))
      ensures Extended(old(fs.FatSeq()), old(chain), fs.FatSeq(), chain)
      ensures res == Ok ==> FirstFree(Content(), 0) == Some(i) && At(i) && fs.winsect == sect
      ensures res != Ok ==> FirstFree(Content(), 0) == None && RegisterRefused(res) && (res == Denied || res == IntErr)
      ensures chain == old(chain) ==> Unallocated()
      ensures res != Ok ==> chain == old(chain)
      ensures old(CountRight(fs.freeClst, fs.FatSeq())) ==> CountRight(fs.freeClst, fs.FatSeq())
      ensures fs.winsect == old(fs.winsect) || Inside()
      ensures chain == old(chain) || i >= old(SlotCount(Tbl()))
    {
      hide Volume.Valid, Volume.Vol, Fat, DirChain, Table, OnTable, Slots, TableGrown, CountRight, StretchRefused,
           RegisterRefused, Extended, Grown, Holds, Valid, IsVolume, Geo.Valid, OnlyTable, InArea, At, Inside,
           FirstFree, Full, Damaged, Sectors;
      ghost var vol0, ch0, fat0, n0 := fs.Vol(), chain, fs.FatSeq(), SlotCount(Tbl());
      TblFacts();
      GrownSelf();
      res := Sdi(0);
      i := 0;
      while true
        invariant Valid() && GrownFrom(vol0, ch0) && Extended(fat0, ch0, fs.FatSeq(), chain) && At(i)
        invariant NoneFree(Content(), i)
        invariant chain == ch0 || (Content()[i][0] == 0 && i >= n0)
        invariant chain == ch0 ==> Unallocated()
        invariant old(CountRight(fs.freeClst, fs.FatSeq())) ==> CountRight(fs.freeClst, fs.FatSeq())
        decreases MAX_SLOTS - i
      {
        ghost var vol1, ch1, fat1 := fs.Vol(), chain, fs.FatSeq();
        var free;
        free, res := TrySlot(i);
        if free {
          FirstFreeIs(Content(), 0, i);
          return Ok, i;
        }
        MoreGrown(fs.g, sclust, vol0, ch0, fat0, vol1, ch1, fat1, fs.Vol(), chain, fs.FatSeq(), i + 1);
        i := i + 1;
        if res != Ok {
          NoneFreeAtAll(Content(), 0);
          Refused(res);
          break;
        }
      }
      if res == NoFile {
        res := Denied;
      }
    }

    /** Bytes stored through dir into the slot the window shows. */
    method EditSlot(o: nat, bytes: seq<byte>, ghost i: nat)
      requires Valid() && At(i) && fs.winsect == sect && o + |bytes| <= ENTRY_SIZE
      modifies fs`wflag, fs.win
      ensures Valid() && fs.FatSeq() == old(fs.FatSeq()) && sect in Tbl()
      ensures Content() == old(Content())[i := Patch(old(Content())[i], o, bytes)]
      ensures forall s: nat :: s < fs.g.devSize && s != sect ==> fs.Vol()[s] == old(fs.Vol())[s]
    {
      hide Volume.Valid, Volume.Vol, Fat, DirChain, Table, Slots, CluIdx, Patch;
      ghost var vol := fs.Vol();
      TblFacts();
      SlotOffset(i);
      assert sect in Tbl();
      fs.EditWindow(dir + o, bytes);
      assert !fs.g.InFat1(sect);
      FatFrame(fs.g, vol, fs.Vol());
      SlotsPatched(vol, Tbl(), i, o, bytes);
      SlotOfContent(vol, Tbl(), i);
    }

    /** dir_register: a fresh entry with the name of the object in the first free slot. */
    method Register() returns (res: Result, ghost i: nat)
      requires Valid()
      modifies fs`disk, fs`wflag, fs`winsect, fs`freeClst, fs`lastClst, fs`fsiDirty, fs.win
      modifies `chain, `dptr, `clust, `sect, `dir
      ensures Valid() && Extended(old(fs.FatSeq()), old(chain), fs.FatSeq(), chain)
      ensures OnlyTable(fs.g, old(fs.Vol()), fs.Vol(), Tbl())
      ensures res == Ok ==> At(i) && fs.winsect == sect && Inside() && Content()[i] == NewEntry(fn)
      ensures res == Ok ==> Registered(old(Content()), fn, i, Content())
      ensures res != Ok ==> GrownFrom(old(fs.Vol()), old(chain)) && FirstFree(Content(), 0) == None
      ensures res != Ok ==> chain == old(chain) && Unallocated()
      ensures res != Ok ==> RegisterRefused(res) && (res == Denied || res == IntErr)
      ensures chain == old(chain) ==> fs.freeClst == old(fs.freeClst) && fs.lastClst == old(fs.lastClst)
      ensures old(CountRight(fs.freeClst, fs.FatSeq())) ==> CountRight(fs.freeClst, fs.FatSeq())
      ensures fs.winsect == old(fs.winsect) || Inside()
      ensures chain == old(chain) || i >= old(SlotCount(Tbl()))
    {
      hide Volume.Valid, Volume.Vol, Fat, DirChain, Table, OnTable, Slots, CountRight, StretchRefused,
           RegisterRefused, Extended, Grown;
      res, i := Alloc();
      if res == Ok {
        var _ := ShowSlot(i);
        ghost var slots := Content();
        PatchAll(slots[i], NewEntry(fn));
        EditSlot(0, NewEntry(fn), i);
      }
    }

    /** dir_remove: the slot of the object is marked as deleted. */
    method Remove(ghost i: nat)
      requires Valid() && At(i)
      modifies fs`disk, fs`wflag, fs`winsect, fs.win
      ensures Valid() && fs.FatSeq() == old(fs.FatSeq()) && fs.winsect == sect && sect in Tbl()
      ensures Content() == old(Content())[i := Deleted(old(Content())[i])]
      ensures Content() == old(Content())[i := old(Content())[i][0 := 0xE5]]
      ensures forall s: nat :: s < fs.g.devSize && s != sect ==> fs.Vol()[s] == old(fs.Vol())[s]
      ensures fs.winsect == old(fs.winsect) || Inside()
    {
      hide Volume.Valid, Volume.Vol, Fat, DirChain, Table, OnTable, Slots;
      var e := ShowSlot(i);
      assert Patch(e, 0, [DDEM]) == Deleted(e);
      EditSlot(0, [DDEM], i);
    }
  }

  /** The FSInfo sector is in front of every directory. */
  lemma FsInfoInFront(g: Geo)
    requires g.Valid()
    ensures g.volbase + 1 < g.fatbase + g.FatArea()
  {
  }

  /** A slot number decides the whole position: dir_sdi and steps of dir_next lead to the same one. */
  lemma PositionDetermined(a: Dir, b: Dir, i: nat)
    requires a.fs.g == b.fs.g && a.sclust == b.sclust && a.chain == b.chain && InArea(a.fs.g, a.chain)
    requires a.At(i) && b.At(i)
    ensures a.dptr == b.dptr == i * ENTRY_SIZE && a.clust == b.clust && a.sect == b.sect && a.dir == b.dir
  {
    hide Table, CluIdx;
  }

  /**
    Where slot i lies: 16 slots to a sector; in the static root directory sector
    after sector from dirbase on, else in the clusters of the chain, which starts
    at the given cluster, or on FAT32 at dirbase for the root directory.
    */
  lemma PlaceByNumbers(dj: Dir, i: nat)
    requires dj.Valid() && dj.At(i)
    ensures dj.dptr == i * 32 && dj.dir == i * 32 % 512
    ensures if dj.sclust == 0 && !dj.fs.g.fsType.FAT32? then dj.clust == 0 && dj.sect == dj.fs.g.dirbase + i / 16
      else
        && i / 16 / dj.fs.g.csize < |dj.chain| && dj.clust == dj.chain[i / 16 / dj.fs.g.csize] >= 2
        && dj.sect == dj.fs.g.database + dj.fs.g.csize * (dj.clust - 2) + i / 16 % dj.fs.g.csize
        && dj.chain[0] == if dj.sclust == 0 then dj.fs.g.dirbase else dj.sclust
  {
    hide Volume.Valid, Volume.Vol, Fat, Sectors, IsChain;
    var g, k := dj.fs.g, i / 16;
    dj.Linked();
    if !IsStatic(g, dj.sclust) {
      Locate(g.csize, k);
      SectorsAt(g, dj.chain, CluIdx(g.csize, k), CluOfs(g.csize, k));
      ClusterPlace(g, dj.clust);
    }
  }

  /** The old slots are followed by cleared ones, and nothing outside the table differs. */
  ghost predicate TableGrown(g: Geo, sclust: nat, vol: seq<Sector>, ch: seq<nat>, vol': seq<Sector>, ch': seq<nat>) {
    && IsVolume(g, vol) && IsVolume(g, vol') && InArea(g, ch) && InArea(g, ch')
    && Table(g, sclust, ch) <= Table(g, sclust, ch')
    && OnVolume(vol, Table(g, sclust, ch)) && OnVolume(vol', Table(g, sclust, ch'))
    && Grown(Slots(vol, Table(g, sclust, ch)), Slots(vol', Table(g, sclust, ch')))
    && OnlyTable(g, vol, vol', Table(g, sclust, ch'))
  }

  lemma NewSlotIsZero(g: Geo, sclust: nat, vol: seq<Sector>, ch: seq<nat>, vol': seq<Sector>, ch': seq<nat>, i: nat)
    requires TableGrown(g, sclust, vol, ch, vol', ch')
    ensures SlotCount(Table(g, sclust, ch)) <= i < SlotCount(Table(g, sclust, ch')) ==>
      Slots(vol', Table(g, sclust, ch'))[i][0] == 0
  {
    hide Table, SlotAt;
  }

  /** One more step of a walk that may stretch the table; the slots already seen stay. */
  lemma MoreGrown(g: Geo, sclust: nat, vol0: seq<Sector>, ch0: seq<nat>, fat0: seq<nat>, vol1: seq<Sector>,
                  ch1: seq<nat>, fat1: seq<nat>,
                  vol2: seq<Sector>, ch2: seq<nat>, fat2: seq<nat>, n: nat)
    requires TableGrown(g, sclust, vol0, ch0, vol1, ch1) && TableGrown(g, sclust, vol1, ch1, vol2, ch2)
    requires Holds(fat0, ch0) && Extended(fat0, ch0, fat1, ch1) && Extended(fat1, ch1, fat2, ch2)
    ensures TableGrown(g, sclust, vol0, ch0, vol2, ch2) && Extended(fat0, ch0, fat2, ch2) && ch0 <= ch1 <= ch2
    ensures var s1, s2 := Slots(vol1, Table(g, sclust, ch1)), Slots(vol2, Table(g, sclust, ch2));
      |s1| <= |s2| && (n <= |s1| && NoneFree(s1, n) ==> NoneFree(s2, n))
    ensures forall s :: s in Table(g, sclust, ch1) ==> s in Table(g, sclust, ch2)
  {
    hide Table, Slots, Grown, Extended, NoneFree, OnlyTable;
    TableGrownTrans(g, sclust, vol0, ch0, vol1, ch1, vol2, ch2);
    ExtendedTrans(fat0, ch0, fat1, ch1, fat2, ch2);
    ExtendedPrefix(fat0, ch0, fat1, ch1);
    ExtendedPrefix(fat1, ch1, fat2, ch2);
    var s1, s2 := Slots(vol1, Table(g, sclust, ch1)), Slots(vol2, Table(g, sclust, ch2));
    GrownLonger(s1, s2);
    if n <= |s1| {
      NoneFreeGrown(s1, s2, n);
    }
  }

  lemma TableGrownTrans(g: Geo, sclust: nat, vol0: seq<Sector>, ch0: seq<nat>, vol1: seq<Sector>, ch1: seq<nat>,
                        vol2: seq<Sector>, ch2: seq<nat>)
    requires TableGrown(g, sclust, vol0, ch0, vol1, ch1) && TableGrown(g, sclust, vol1, ch1, vol2, ch2)
    ensures TableGrown(g, sclust, vol0, ch0, vol2, ch2)
  {
    hide Table, Slots, Grown;
    GrownTrans(Slots(vol0, Table(g, sclust, ch0)), Slots(vol1, Table(g, sclust, ch1)),
               Slots(vol2, Table(g, sclust, ch2)));
  }

  /** Nothing but the allocation table and the sectors of the table tbl differs. */
  ghost predicate OnlyTable(g: Geo, vol: seq<Sector>, vol': seq<Sector>, tbl: seq<nat>)
    requires IsVolume(g, vol) && IsVolume(g, vol')
  {
    forall s: nat :: s < g.devSize && g.OutsideFats(s) && s !in tbl ==> vol'[s] == vol[s]
  }

  lemma ExtendedHolds(fat: seq<nat>, ch: seq<nat>, fat': seq<nat>, ch': seq<nat>)
    requires Extended(fat, ch, fat', ch') && ch' != []
    ensures IsChain(fat', ch')
  {
  }

  /** A cleared cluster appended to the chain: its sectors end the table. */
  lemma RunInTable(g: Geo, fat: seq<nat>, ch: seq<nat>, r: nat)
    requires g.Valid() && |fat| == g.nFatent && IsChain(fat, ch + [r])
    ensures InArea(g, ch) && InArea(g, ch + [r])
    ensures var t, t', s := Sectors(g, ch), Sectors(g, ch + [r]), g.FirstSector(r);
      && t <= t' && |t'| == |t| + g.csize
      && (forall k :: 0 <= k < |t'| ==>
            t'[k] < g.devSize && g.OutsideFats(t'[k]) && (s <= t'[k] < s + g.csize <==> k >= |t|))
      && (forall x :: s <= x < s + g.csize ==> x in t')
  {
    hide Sectors;
    var ch' := ch + [r];
    AllInArea(fat, ch');
    assert forall i :: 0 <= i < |ch| ==> ch[i] == ch'[i];
    ChainTable(g, fat, ch');
    SectorsPrefix(g, ch, ch');
    AppendedRun(g, ch, r);
    var t, t', s := Sectors(g, ch), Sectors(g, ch'), g.FirstSector(r);
    forall k | 0 <= k < |t'|
      ensures t'[k] < g.devSize && g.OutsideFats(t'[k]) && (s <= t'[k] < s + g.csize <==> k >= |t|)
    {
      assert t'[k] in t';
      if s <= t'[k] < s + g.csize {
        assert t'[|t| + (t'[k] - s)] == t'[k];
      }
    }
    forall x | s <= x < s + g.csize
      ensures x in t'
    {
      assert t'[|t| + (x - s)] == x;
    }
  }

  /** The old slots stay, the new ones are 00. */
  lemma TableStretched(g: Geo, vol: seq<Sector>, vol1: seq<Sector>, vol2: seq<Sector>, sclust: nat, ch: seq<nat>,
                       r: nat)
    requires IsVolume(g, vol) && IsVolume(g, vol1) && IsVolume(g, vol2) && SameOutsideFats(g, vol, vol1)
    requires !IsStatic(g, sclust) && ch != [] && IsChain(Fat(g, vol2), ch + [r])
    requires g.InRange(r) && g.FirstSector(r) + g.csize <= g.devSize
    requires vol2 == Cleared(vol1, g.FirstSector(r), g.csize)
    ensures TableGrown(g, sclust, vol, ch, vol2, ch + [r]) && g.FirstSector(r) in Table(g, sclust, ch + [r])
  {
    hide Sectors, Slots, SlotCount, Fat, Grown, IsChain;
    RunInTable(g, Fat(g, vol2), ch, r);
    SlotsGrown(vol, Sectors(g, ch), vol2, Sectors(g, ch + [r]));
  }

  lemma AllInArea(fat: seq<nat>, ch: seq<nat>)
    requires IsChain(fat, ch)
    ensures forall i :: 0 <= i < |ch| ==> 2 <= ch[i] < |fat|
  {
  }

  lemma AppendedRun(g: Geo, ch: seq<nat>, r: nat)
    requires InArea(g, ch + [r])
    ensures InArea(g, ch) && |Sectors(g, ch + [r])| == |Sectors(g, ch)| + g.csize
    ensures forall j :: |Sectors(g, ch)| <= j < |Sectors(g, ch)| + g.csize ==>
      Sectors(g, ch + [r])[j] == g.FirstSector(r) + (j - |Sectors(g, ch)|)
  {
    assert (ch + [r])[..|ch|] == ch;
    assert forall i :: 0 <= i < |ch| ==> ch[i] == (ch + [r])[i];
  }

  /** The static table ends with the root directory entries. */
  lemma StaticEnd(g: Geo, k: nat)
    requires g.Valid() && !g.fsType.FAT32?
    ensures k * SECTOR_SIZE / ENTRY_SIZE >= g.nRootdir <==> k >= g.RootSectors()
  {
    assert k * SECTOR_SIZE / ENTRY_SIZE == k * 16;
  }

  /** The static table: its slots are the root directory entries. */
  lemma StaticPlace(g: Geo, ofs: nat)
    requires g.Valid() && !g.fsType.FAT32? && ofs % ENTRY_SIZE == 0 && ofs < MAX_DIR
    ensures var t, i := CountUp(g.dirbase, g.RootSectors()), ofs / ENTRY_SIZE;
      && g.csize > 0 && ofs == i * ENTRY_SIZE && (i < g.nRootdir <==> i < SlotCount(t))
      && (i < g.nRootdir ==> i / SLOTS_PER_SECTOR < |t| && t[i / SLOTS_PER_SECTOR] == g.dirbase + ofs / SECTOR_SIZE)
  {
    hide CountUp;
    SlotOffset(ofs / ENTRY_SIZE);
    assert g.csize > 0 && g.nRootdir % 16 == 0;
    hide Geo.Valid;
    RootSlots(g.nRootdir, ofs / ENTRY_SIZE);
  }

  lemma RootSlots(n: nat, i: nat)
    requires n % 16 == 0
    ensures n / 16 * 16 == n && (i < n ==> i / 16 < n / 16)
  {
  }

  /** An offset at or behind the end of the chain has no slot. */
  lemma BeyondTable(g: Geo, ch: seq<nat>, ofs: nat, j: nat)
    requires InArea(g, ch) && j >= |ch| && Bound(g.csize, j) <= ofs && ofs % ENTRY_SIZE == 0
    ensures ofs / ENTRY_SIZE >= SlotCount(Sectors(g, ch))
  {
    hide Sectors;
    BoundOfChain(g, ch);
    if |ch| < j {
      RunsApart(g.csize, |ch|, j);
    }
  }

  /** Slot number, sector and offset in the sector. */
  lemma SlotOffset(i: nat)
    ensures i * ENTRY_SIZE / SECTOR_SIZE == i / SLOTS_PER_SECTOR
    ensures i * ENTRY_SIZE % SECTOR_SIZE == i % SLOTS_PER_SECTOR * ENTRY_SIZE
  {
    var q, r := i / 16, i % 16;
    assert i * ENTRY_SIZE == q * SECTOR_SIZE + r * ENTRY_SIZE;
  }

  /** The slot after slot i is in the same sector or starts the next one. */
  lemma NextSlot(i: nat, ofs: nat)
    requires ofs == i * ENTRY_SIZE + ENTRY_SIZE
    ensures if ofs % SECTOR_SIZE == 0 then
        (i + 1) / SLOTS_PER_SECTOR == i / SLOTS_PER_SECTOR + 1 && ofs == (i / SLOTS_PER_SECTOR + 1) * SECTOR_SIZE
      else (i + 1) / SLOTS_PER_SECTOR == i / SLOTS_PER_SECTOR
    ensures ofs >= MAX_DIR <==> i + 1 >= MAX_SLOTS
  {
    SlotOffset(i + 1);
  }

  /** The next sector of a table is in the same cluster, */
  lemma StepInside(g: Geo, ch: seq<nat>, k: nat)
    requires g.csize > 0 && InArea(g, ch) && k < |Sectors(g, ch)| && CluOfs(g.csize, k + 1) != 0
    ensures CluIdx(g.csize, k + 1) == CluIdx(g.csize, k) < |ch|
    ensures k + 1 < |Sectors(g, ch)| && Sectors(g, ch)[k + 1] == Sectors(g, ch)[k] + 1
  {
    hide Sectors, CluIdx, CluOfs;
    SameCluster(g.csize, k + 1);
    Locate(g.csize, k);
    Locate(g.csize, k + 1);
    SectorAt(g, ch, k);
    LocateBelow(g.csize, k + 1, |ch|);
    SectorAt(g, ch, k + 1);
  }

  /** or it starts the next one, if there is one. */
  lemma StepOver(g: Geo, ch: seq<nat>, k: nat)
    requires g.csize > 0 && InArea(g, ch) && k < |Sectors(g, ch)| && CluOfs(g.csize, k + 1) == 0
    ensures var j := CluIdx(g.csize, k);
      && j < |ch| && CluIdx(g.csize, k + 1) == j + 1 && k + 1 == RunLength(g.csize, j + 1)
      && (k + 1 < |Sectors(g, ch)| <==> j + 1 < |ch|)
  {
    hide Sectors, CluIdx, CluOfs;
    PreviousCluster(g.csize, k + 1);
    Locate(g.csize, k + 1);
    LocateBelow(g.csize, k, |ch|);
    LocateBelow(g.csize, k + 1, |ch|);
  }

  /** Cluster, sector and offset of a slot. */
  lemma SlotPlace(g: Geo, ch: seq<nat>, j: nat, ofs: nat)
    requires g.csize > 0 && InArea(g, ch) && j < |ch| && ofs % ENTRY_SIZE == 0 && ofs < MAX_DIR
    requires Bound(g.csize, j) <= ofs < Bound(g.csize, j + 1)
    ensures var i := ofs / ENTRY_SIZE;
      && i < SlotCount(Sectors(g, ch)) && ofs == i * ENTRY_SIZE
      && CluIdx(g.csize, i / SLOTS_PER_SECTOR) == j
      && i / SLOTS_PER_SECTOR < |Sectors(g, ch)|
      && Sectors(g, ch)[i / SLOTS_PER_SECTOR] == g.FirstSector(ch[j]) + (ofs - Bound(g.csize, j)) / SECTOR_SIZE
      && ofs % SECTOR_SIZE == (ofs - Bound(g.csize, j)) % SECTOR_SIZE
  {
    hide Sectors, CluIdx, CluOfs, Bound, RunLength, Geo.FirstSector;
    ClusterOfByte(g.csize, ofs, j);
    SlotOfOffset(ofs);
    SectorsAt(g, ch, j, (ofs - Bound(g.csize, j)) / SECTOR_SIZE);
    EnoughSlots(Sectors(g, ch), ofs);
  }

  lemma SlotOfOffset(ofs: nat)
    requires ofs % ENTRY_SIZE == 0
    ensures ofs == ofs / ENTRY_SIZE * ENTRY_SIZE && ofs / ENTRY_SIZE / SLOTS_PER_SECTOR == ofs / SECTOR_SIZE
  {
    SlotOffset(ofs / ENTRY_SIZE);
  }

  lemma EnoughSlots(tbl: seq<nat>, ofs: nat)
    requires ofs % ENTRY_SIZE == 0 && ofs < MAX_DIR && ofs / SECTOR_SIZE < |tbl|
    ensures ofs / ENTRY_SIZE < SlotCount(tbl)
  {
    SlotOfOffset(ofs);
  }
}
