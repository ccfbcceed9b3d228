/**
  Creating a directory (f_mkdir): a cluster with the two dot entries, and an
  entry for it in the parent.
  */
module MakeDir {
  import opened Bytes
  import opened Geometry
  import opened FatTable
  import opened FileSystem
  import opened Chains
  import opened Allocation
  import opened FileData
  import opened Entries
  import opened Directory
  import opened DirTable
  import opened Directories
  import opened Others
  import opened Operations

  const DOT := 0x2E

  /** The "." entry f_mkdir builds over cleared bytes. */
  function DotEntry(t: FatType, tm: nat, dcl: nat): Entry32 {
    var e: Entry32 := [DOT] + seq(10, _ => 0x20) + seq(21, _ => 0);
    StClust(t, Patch(Patch(e, DIR_ATTR, [AM_DIR]), DIR_MOD_TIME, DwordBytes(tm)), dcl)
  }

  /** The ".." entry, made from a copy of the "." entry. */
  function DotDotEntry(t: FatType, dot: Entry32, pcl: nat): Entry32 {
    StClust(t, Patch(dot, 1, [DOT]), pcl)
  }

  /** The entry of the new directory in its parent. */
  function DirEntry(t: FatType, e: Entry32, tm: nat, dcl: nat): Entry32 {
    Patch(StClust(t, Patch(e, DIR_MOD_TIME, DwordBytes(tm)), dcl), DIR_ATTR, [AM_DIR])
  }

  /** The table of a new directory: the two dot entries, then cleared slots. */
  ghost predicate NewTable(slots: seq<Entry32>, t: FatType, tm: nat, dcl: nat, pcl: nat) {
    && |slots| > 2 && slots[0] == DotEntry(t, tm, dcl) && slots[1] == DotDotEntry(t, DotEntry(t, tm, dcl), pcl)
    && forall i :: 2 <= i < |slots| ==> slots[i][0] == 0
  }

  /** The "." entry by bytes: name, attribute, time, cluster, and zeros. */
  lemma DotEntryReads(t: FatType, tm: nat, dcl: nat)
    requires dcl < (if t.FAT32? then 0x1_0000_0000 else 0x1_0000)
    ensures var e := DotEntry(t, tm, dcl);
      && LdClust(t, e) == dcl && e[0] == 0x2E && e[11] == 0x10 && (forall k :: 1 <= k < 11 ==> e[k] == 0x20)
      && (forall k :: 12 <= k < 20 ==> e[k] == 0) && (forall k :: 28 <= k < 32 ==> e[k] == 0)
      && LdWord(e, 26) == dcl % 0x1_0000 && LdWord(e, 20) == (if t.FAT32? then dcl / 0x1_0000 else 0)
      && (tm < 0x1_0000_0000 ==> LdDword(e, 22) == tm)
  {
    hide Patch, StClust, LdClust, FileSize, LdWord, LdDword, DwordBytes;
    var e0: Entry32 := [DOT] + seq(10, _ => 0x20) + seq(21, _ => 0);
    var e1 := Patch(e0, DIR_ATTR, [AM_DIR]);
    var e2 := Patch(e1, DIR_MOD_TIME, DwordBytes(tm));
    BytesKept(e0, DIR_ATTR, [AM_DIR]);
    BytesKept(e1, DIR_MOD_TIME, DwordBytes(tm));
    StClustBytes(t, e2, dcl);
    ClustRoundTrip(t, e2, dcl);
    if tm < 0x1_0000_0000 {
      DwordRoundTrip(e1, DIR_MOD_TIME, tm);
    }
    SameDword(e2, DotEntry(t, tm, dcl), 22);
    SameWord(e0, e2, 20);
    NoWord(e0);
  }

  lemma NoWord(e: Entry32)
    requires e[20] == 0 && e[21] == 0
    ensures LdWord(e, 20) == 0
  {
  }

  /** The ".." entry is the "." entry but for its second period and its cluster. */
  lemma DotDotEntryReads(t: FatType, dot: Entry32, pcl: nat)
    requires pcl < (if t.FAT32? then 0x1_0000_0000 else 0x1_0000)
    ensures var e := DotDotEntry(t, dot, pcl);
      && LdClust(t, e) == pcl && e[1] == 0x2E
      && LdWord(e, 26) == pcl % 0x1_0000 && LdWord(e, 20) == (if t.FAT32? then pcl / 0x1_0000 else LdWord(dot, 20))
      && forall k: nat :: k < 32 && k != 1 && !(20 <= k < 22) && !(26 <= k < 28) ==> e[k] == dot[k]
  {
    hide Patch, StClust, LdClust, LdWord;
    var e1 := Patch(dot, 1, [DOT]);
    BytesKept(dot, 1, [DOT]);
    StClustBytes(t, e1, pcl);
    ClustRoundTrip(t, e1, pcl);
    SameWord(dot, e1, 20);
  }

  /** The entry of a directory: its cluster, time and attribute; every other byte stays. */
  lemma DirEntryReads(t: FatType, e: Entry32, tm: nat, dcl: nat)
    requires dcl < (if t.FAT32? then 0x1_0000_0000 else 0x1_0000)
    ensures var r := DirEntry(t, e, tm, dcl);
      && LdClust(t, r) == dcl && r[..11] == e[..11] && r[11] == 0x10
      && LdWord(r, 26) == dcl % 0x1_0000 && LdWord(r, 20) == (if t.FAT32? then dcl / 0x1_0000 else LdWord(e, 20))
      && (tm < 0x1_0000_0000 ==> LdDword(r, 22) == tm)
      && forall k: nat :: k < 32 && k != 11 && !(20 <= k < 28) ==> r[k] == e[k]
  {
    hide Patch, StClust, LdClust, LdWord, LdDword, DwordBytes;
    var e1 := Patch(e, DIR_MOD_TIME, DwordBytes(tm));
    var e2 := StClust(t, e1, dcl);
    var r := DirEntry(t, e, tm, dcl);
    BytesKept(e, DIR_MOD_TIME, DwordBytes(tm));
    StClustBytes(t, e1, dcl);
    BytesKept(e2, DIR_ATTR, [AM_DIR]);
    ClustRoundTrip(t, e1, dcl);
    ClustKept(t, e2, DIR_ATTR, [AM_DIR]);
    if tm < 0x1_0000_0000 {
      DwordRoundTrip(e, DIR_MOD_TIME, tm);
    }
    SameDword(e1, r, 22);
    SameWord(e2, r, 26);
    SameWord(e2, r, 20);
    SameWord(e, e1, 20);
  }

  /** A new directory is well formed and, for f_unlink, empty; no proper name is in it. */
  lemma NewTableIsEmpty(slots: seq<Entry32>, t: FatType, tm: nat, dcl: nat, pcl: nat, name: Name11)
    requires NewTable(slots, t, tm, dcl, pcl)
    requires dcl < (if t.FAT32? then 0x1_0000_0000 else 0x1_0000)
    requires pcl < (if t.FAT32? then 0x1_0000_0000 else 0x1_0000)
    ensures WellFormed(slots) && FirstVisible(slots, 0) == None
    ensures name[0] != DOT ==> Directory.Find(slots, name, 0) == None
  {
    hide DotEntry, DotDotEntry, HasBit, Kind;
    DotEntryReads(t, tm, dcl);
    DotDotEntryReads(t, DotEntry(t, tm, dcl), pcl);
    assert slots[0][0] == DOT && slots[1][0] == DOT && slots[2][0] == 0;
    assert slots[0][..11][1] == 0x20 && slots[1][..11][1] == DOT;
    assert FirstVisible(slots, 2) == None;
    assert FirstVisible(slots, 1) == None;
    assert Directory.Find(slots, name, 2) == None;
    assert slots[0][..11][0] == DOT && slots[1][..11][0] == DOT;
    if name[0] != DOT {
      assert Directory.Find(slots, name, 1) == None;
    }
  }

  // ---- the new cluster

  /** A cleared cluster with the two dot entries in its first sector is a new table. */
  lemma DotsInTable(g: Geo, vol: seq<Sector>, dcl: nat, t: FatType, tm: nat, pcl: nat)
    requires IsVolume(g, vol) && g.InRange(dcl) && g.FirstSector(dcl) + g.csize <= g.devSize
    requires forall s :: g.FirstSector(dcl) <= s < g.FirstSector(dcl) + g.csize ==> vol[s] == ZERO_SECTOR
    ensures var s, dot := g.FirstSector(dcl), DotEntry(t, tm, dcl);
      var vol1 := vol[s := Patch(vol[s], 0, dot)];
      var vol2 := vol1[s := Patch(vol1[s], ENTRY_SIZE, DotDotEntry(t, dot, pcl))];
      InArea(g, [dcl]) && OnVolume(vol2, Sectors(g, [dcl])) && NewTable(Slots(vol2, Sectors(g, [dcl])), t, tm, dcl, pcl)
  {
    hide DotEntry, DotDotEntry, Patch, Slots, Sectors;
    var s, dot, tbl := g.FirstSector(dcl), DotEntry(t, tm, dcl), Sectors(g, [dcl]);
    OneCluster(g, dcl);
    var vol1 := vol[s := Patch(vol[s], 0, dot)];
    SlotsPatched(vol, tbl, 0, 0, dot);
    SlotsPatched(vol1, tbl, 1, 0, DotDotEntry(t, dot, pcl));
    PatchAll(SlotAt(vol, tbl, 0), dot);
    PatchAll(SlotAt(vol1, tbl, 1), DotDotEntry(t, dot, pcl));
    ClearedSlots(vol, tbl);
  }

  lemma OneCluster(g: Geo, dcl: nat)
    requires g.Valid() && g.InRange(dcl) && g.FirstSector(dcl) + g.csize <= g.devSize
    ensures InArea(g, [dcl]) && |Sectors(g, [dcl])| == g.csize > 0
    ensures forall k :: 0 <= k < g.csize ==> Sectors(g, [dcl])[k] == g.FirstSector(dcl) + k
    ensures AllDistinct(Sectors(g, [dcl])) && SlotCount(Sectors(g, [dcl])) > 2
  {
    assert [dcl][..0] == [];
    assert Sectors(g, []) == [];
    assert Sectors(g, [dcl]) == Sectors(g, []) + Run(g, dcl);
  }

  lemma ClearedSlots(vol: seq<Sector>, tbl: seq<nat>)
    requires OnVolume(vol, tbl) && forall k :: 0 <= k < |tbl| ==> vol[tbl[k]] == ZERO_SECTOR
    ensures forall i :: 0 <= i < |Slots(vol, tbl)| ==> Slots(vol, tbl)[i][0] == 0
  {
  }

  /** f_mkdir on the new cluster: clear it and put the dot entries into its first sector. */
  method MakeTable(fs: Volume, dcl: nat, pcl: nat, tm: dword)
    requires fs.Valid() && fs.g.InRange(dcl)
    modifies fs`disk, fs`wflag, fs`winsect, fs.win
    ensures fs.Valid() && fs.FatSeq() == old(fs.FatSeq())
    ensures InArea(fs.g, [dcl]) && OnlyChain(fs.g, old(fs.Vol()), fs.Vol(), [dcl])
    ensures OnVolume(fs.Vol(), Sectors(fs.g, [dcl]))
    ensures NewTable(Slots(fs.Vol(), Sectors(fs.g, [dcl])), fs.g.fsType, tm, dcl, pcl)
    ensures fs.winsect in Sectors(fs.g, [dcl])
  {
    hide Volume.Valid, Volume.Vol, Fat, DotEntry, DotDotEntry, Patch, Slots, Sectors, NewTable;
    ghost var vol0 := fs.Vol();
    DirClear(fs, dcl);
    ghost var vol, s := fs.Vol(), fs.winsect;
    OneCluster(fs.g, dcl);
    var dot := DotEntry(fs.g.fsType, tm, dcl);
    fs.EditWindow(0, dot);
    fs.EditWindow(ENTRY_SIZE, DotDotEntry(fs.g.fsType, dot, pcl));
    DotsInTable(fs.g, vol, dcl, fs.g.fsType, tm, pcl);
    FatFrame(fs.g, vol, fs.Vol());
    assert Sectors(fs.g, [dcl])[0] == s;
    OnlyOneCluster(fs.g, vol0, fs.Vol(), dcl);
  }

  lemma OnlyOneCluster(g: Geo, vol: seq<Sector>, vol': seq<Sector>, dcl: nat)
    requires IsVolume(g, vol) && IsVolume(g, vol') && g.InRange(dcl) && g.FirstSector(dcl) + g.csize <= g.devSize
    requires forall s: nat :: s < g.devSize && !(g.FirstSector(dcl) <= s < g.FirstSector(dcl) + g.csize) ==>
      vol'[s] == vol[s]
    ensures InArea(g, [dcl]) && OnlyChain(g, vol, vol', [dcl])
  {
    hide Sectors;
    OneCluster(g, dcl);
    forall s | g.FirstSector(dcl) <= s < g.FirstSector(dcl) + g.csize
      ensures s in Sectors(g, [dcl])
    {
      assert Sectors(g, [dcl])[s - g.FirstSector(dcl)] == s;
    }
  }

  // ---- f_mkdir

  /** create_chain for a new object: one free cluster, apart from the directory. */
  method NewCluster(dj: Dir) returns (dcl: nat)
    requires dj.Valid()
    modifies dj.fs`disk, dj.fs`wflag, dj.fs`winsect, dj.fs`freeClst, dj.fs`lastClst, dj.fs`fsiDirty, dj.fs.win
    ensures dj.Valid() && dj.Content() == old(dj.Content()) && SameOutsideFats(dj.fs.g, old(dj.fs.Vol()), dj.fs.Vol())
    ensures dcl == 0 ==> old(dj.fs.freeClst) == 0 || Full(dj.fs.FatSeq())
    ensures dcl == 1 ==> Damaged(dj.fs.FatSeq())
    ensures dcl < 2 ==> dj.fs.Vol() == old(dj.fs.Vol())
    ensures dcl >= 2 ==>
      dj.fs.g.InRange(dcl) && Extended(old(dj.fs.FatSeq()), [], dj.fs.FatSeq(), [dcl]) && Apart(dj.chain, [dcl])
    ensures old(CountRight(dj.fs.freeClst, dj.fs.FatSeq())) ==> CountRight(dj.fs.freeClst, dj.fs.FatSeq())
    ensures dj.fs.winsect == old(dj.fs.winsect) || dj.fs.g.InFat1(dj.fs.winsect)
    ensures dcl >= 2 ==> dcl < |old(dj.fs.FatSeq())| && old(dj.fs.FatSeq())[dcl] == 0
  {
    hide Volume.Valid, Volume.Vol, Fat, DirChain, Table, Slots, IsChain, Full, FirstChoice, CountRight, Extended,
         Sectors, OnlyChain;
    ghost var fat, vol := dj.fs.FatSeq(), dj.fs.Vol();
    dj.TblFacts();
    dcl := CreateChain(dj.fs, 0);
    if dcl >= 2 {
      EndMarkEnds(dj.fs.g, 0);
      ExtendByOne(fat, [], dcl, EndMark(dj.fs.g.fsType));
      assert [] + [dcl] == [dcl];
      ExtendedApart(fat, [], dj.fs.FatSeq(), [dcl], dj.chain);
      DirChainKept(dj.fs.g, fat, dj.fs.FatSeq(), dj.sclust, dj.chain);
      TableOnly(dj.fs.g, vol, dj.fs.Vol(), [dcl]);
      DirectoryKept(dj.fs.g, vol, dj.fs.Vol(), [dcl], dj.sclust, dj.chain);
    }
  }

  /** The dot entries, beside the parent. */
  method MakeBeside(dj: Dir, dcl: nat, tm: dword)
    requires dj.Valid() && dj.fs.g.InRange(dcl) && Apart(dj.chain, [dcl])
    modifies dj.fs`disk, dj.fs`wflag, dj.fs`winsect, dj.fs.win
    ensures dj.Valid() && dj.fs.FatSeq() == old(dj.fs.FatSeq()) && dj.Content() == old(dj.Content())
    ensures NewDirAt(dj.fs.g, dj.fs.Vol(), tm, dcl, dj.sclust)
    ensures OnlyChain(dj.fs.g, old(dj.fs.Vol()), dj.fs.Vol(), [dcl])
    ensures dj.fs.winsect in Sectors(dj.fs.g, [dcl])
  {
    hide Volume.Valid, Volume.Vol, Fat, DirChain, Table, Slots, IsChain, Sectors, OnlyChain, NewTable;
    ghost var vol := dj.fs.Vol();
    MakeTable(dj.fs, dcl, dj.sclust, tm);
    DirectoryKept(dj.fs.g, vol, dj.fs.Vol(), [dcl], dj.sclust, dj.chain);
  }

  /** A new directory is in cluster dcl. */
  ghost predicate NewDirAt(g: Geo, vol: seq<Sector>, tm: nat, dcl: nat, pcl: nat) {
    && InArea(g, [dcl]) && OnVolume(vol, Sectors(g, [dcl]))
    && NewTable(Slots(vol, Sectors(g, [dcl])), g.fsType, tm, dcl, pcl)
  }

  /** It stays there while only the parent changes. */
  lemma NewDirBeside(g: Geo, vol: seq<Sector>, vol': seq<Sector>, sclust: nat, dch: seq<nat>, tm: nat, dcl: nat,
                     pcl: nat)
    requires IsVolume(g, vol) && IsVolume(g, vol') && NewDirAt(g, vol, tm, dcl, pcl)
    requires DirChain(g, Fat(g, vol'), sclust, dch) && InArea(g, dch) && Apart(dch, [dcl])
    requires OnlyTable(g, vol, vol', Table(g, sclust, dch))
    ensures NewDirAt(g, vol', tm, dcl, pcl)
  {
    hide Sectors, Fat, DirChain, Table, Slots, NewTable;
    forall s | s in Sectors(g, [dcl])
      ensures s < g.devSize && vol'[s] == vol[s]
    {
      SectorsInData(g, [dcl], s);
      if s in Table(g, sclust, dch) {
        FileBesideTable(g, Fat(g, vol'), sclust, dch, [dcl], s);
      }
    }
    SlotsFrame(vol, vol', Sectors(g, [dcl]));
  }

  lemma NewDirSynced(g: Geo, vol: seq<Sector>, vol': seq<Sector>, tm: nat, dcl: nat, pcl: nat)
    requires IsVolume(g, vol) && IsVolume(g, vol') && NewDirAt(g, vol, tm, dcl, pcl)
    requires forall s: nat :: s < g.devSize && s != g.volbase + 1 ==> vol'[s] == vol[s]
    ensures NewDirAt(g, vol', tm, dcl, pcl)
  {
    hide Sectors, Slots, NewTable;
    forall s | s in Sectors(g, [dcl])
      ensures s < g.devSize && s != g.volbase + 1
    {
      SectorsInData(g, [dcl], s);
    }
    SlotsFrame(vol, vol', Sectors(g, [dcl]));
  }

  /** The window shows the allocation table, the directory, a new cluster or FSInfo. */
  ghost predicate NewWindow(dj: Dir, added: seq<nat>)
    requires dj.Valid() && InArea(dj.fs.g, added)
    reads dj, dj.fs, dj.fs.win
  {
    dj.Inside() || dj.fs.winsect in Sectors(dj.fs.g, added) || dj.fs.winsect == dj.fs.g.volbase + 1
  }

  /** The clusters f_mkdir allocated. */
  function NewChain(dcl: nat): seq<nat> {
    if dcl == 0 then [] else [dcl]
  }

  /** The last part of f_mkdir: the entry in the parent, and everything on the device. */
  method EnterDir(dj: Dir, dcl: nat, tm: dword, ghost i: nat)
    requires dj.Valid() && dj.At(i) && dj.fs.winsect == dj.sect && dj.Content()[i] == NewEntry(dj.fn)
    requires Apart(dj.chain, [dcl]) && NewDirAt(dj.fs.g, dj.fs.Vol(), tm, dcl, dj.sclust)
    modifies dj.fs`disk, dj.fs`wflag, dj.fs`winsect, dj.fs`fsiDirty, dj.fs.win
    ensures dj.Valid() && dj.fs.FatSeq() == old(dj.fs.FatSeq()) && !dj.fs.wflag && dj.fs.disk == dj.fs.Vol()
    ensures dj.Content() == old(dj.Content())[i := DirEntry(dj.fs.g.fsType, NewEntry(dj.fn), tm, dcl)]
    ensures NewDirAt(dj.fs.g, dj.fs.Vol(), tm, dcl, dj.sclust)
    ensures InArea(dj.fs.g, []) && OnlyBeside(dj.fs.g, old(dj.fs.Vol()), dj.fs.Vol(), dj.Tbl(), [])
    ensures dj.Inside() || dj.fs.winsect == dj.fs.g.volbase + 1
  {
    hide Volume.Valid, Volume.Vol, Fat, DirChain, Table, Slots, IsChain, Sectors, NewDirAt, DirEntry, NewEntry,
         Dir.OnTable, Patch;
    ghost var vol := dj.fs.Vol();
    var e: Entry32 := NewEntry(dj.fn);
    var e' := DirEntry(dj.fs.g.fsType, e, tm, dcl);
    PatchAll(e, e');
    dj.EditSlot(0, e', i);
    NewDirBeside(dj.fs.g, vol, dj.fs.Vol(), dj.sclust, dj.chain, tm, dcl, dj.sclust);
    vol := dj.fs.Vol();
    dj.SyncVolume();
    NewDirSynced(dj.fs.g, vol, dj.fs.Vol(), tm, dcl, dj.sclust);
  }

  /** Allocating a cluster and freeing it again restores the table. */
  lemma AllocationUndone(fat: seq<nat>, fat1: seq<nat>, fat2: seq<nat>, dcl: nat)
    requires dcl < |fat| && Extended(fat, [], fat1, [dcl]) && Cut(fat1, [dcl], 0, fat2)
    ensures fat2 == fat
  {
    hide IsChain;
    assert [dcl][0] == dcl;
    forall c: nat | c < |fat|
      ensures fat2[c] == fat[c]
    {
      if c != dcl {
        assert c !in [dcl];
      }
    }
  }

  /** The part of f_mkdir after the cluster is allocated: table, entry, or giving the cluster back. */
  method FillAndRegister(dj: Dir, dcl: nat, tm: dword, ghost fat0: seq<nat>) returns (res: Result, ghost i: nat)
    requires dj.Valid() && dj.fs.g.InRange(dcl) && Apart(dj.chain, [dcl])
    requires Extended(fat0, [], dj.fs.FatSeq(), [dcl]) && |fat0| == dj.fs.g.nFatent
    modifies dj.fs`disk, dj.fs`wflag, dj.fs`winsect, dj.fs`freeClst, dj.fs`lastClst, dj.fs`fsiDirty, dj.fs.win
    modifies dj`chain, dj`dptr, dj`clust, dj`sect, dj`dir
    ensures dj.Valid()
    ensures res != Ok ==>
      && (res == Denied || res == IntErr)
      && dj.fs.FatSeq() == fat0 && dj.Content() == old(dj.Content()) && dj.chain == old(dj.chain)
    ensures res == Ok ==>
      && i < |dj.Content()| && dj.Content()[i] == DirEntry(dj.fs.g.fsType, NewEntry(dj.fn), tm, dcl)
      && Registered(old(dj.Content()), dj.fn, i, dj.Content()[i := NewEntry(dj.fn)])
      && NewDirAt(dj.fs.g, dj.fs.Vol(), tm, dcl, dj.sclust)
      && Extended(old(dj.fs.FatSeq()), old(dj.chain), dj.fs.FatSeq(), dj.chain)
      && Holds(dj.fs.FatSeq(), [dcl]) && Apart(dj.chain, [dcl])
      && !dj.fs.wflag && dj.fs.disk == dj.fs.Vol()
    ensures old(CountRight(dj.fs.freeClst, dj.fs.FatSeq())) ==> CountRight(dj.fs.freeClst, dj.fs.FatSeq())
    ensures OnlyBeside(dj.fs.g, old(dj.fs.Vol()), dj.fs.Vol(), dj.Tbl(), [dcl])
    ensures NewWindow(dj, [dcl])
    ensures res != Ok ==> FirstFree(dj.Content(), 0) == None
  {
    hide Volume.Valid, Volume.Vol, Fat, DirChain, Table, Slots, IsChain, Sectors, NewDirAt, DirEntry, NewEntry,
         Dir.OnTable, Extended, Cut;
    hide CountRight, Registered, FirstFree, Dir.RegisterRefused, TableGrown, Holds;
    ghost var fat1, dch := dj.fs.FatSeq(), dj.chain;
    assert Holds(fat1, [dcl]) by {
      ExtendedHolds(fat0, [], fat1, [dcl]);
      ChainHolds(fat1, [dcl]);
    }
    MakeBeside(dj, dcl, tm);
    ghost var vol := dj.fs.Vol();
    res, i := dj.Register();
    if res == Ok {
      ghost var mid := dj.Content();
      ExtendedApart(fat1, dch, dj.fs.FatSeq(), dj.chain, [dcl]);
      NewDirBeside(dj.fs.g, vol, dj.fs.Vol(), dj.sclust, dj.chain, tm, dcl, dj.sclust);
      EnterDir(dj, dcl, tm, i);
      assert dj.Content()[i := mid[i]] == mid;
    } else {
      var _ := FreeObject(dj, dcl, [dcl]);
      AllocationUndone(fat0, fat1, dj.fs.FatSeq(), dcl);
    }
  }

  lemma ChainHolds(fat: seq<nat>, ch: seq<nat>)
    requires IsChain(fat, ch)
    ensures Holds(fat, ch)
  {
  }

  /** f_mkdir on the last segment of a path: all of it or, when it fails, nothing of it. */
  method CreateDirectory(dj: Dir, tm: dword) returns (res: Result, ghost i: nat, ghost dcl: nat, ghost fat1: seq<nat>)
    requires dj.Valid()
    modifies dj.fs`disk, dj.fs`wflag, dj.fs`winsect, dj.fs`freeClst, dj.fs`lastClst, dj.fs`fsiDirty, dj.fs.win
    modifies dj`chain, dj`attr, dj`dptr, dj`clust, dj`sect, dj`dir
    ensures dj.Valid()
    ensures res == Exist <==> old(Directory.Find(dj.Content(), dj.fn, 0)).Some?
    ensures res == Ok || res == Exist || res == Denied || res == IntErr
    ensures res != Ok ==>
      dj.fs.FatSeq() == old(dj.fs.FatSeq()) && dj.Content() == old(dj.Content()) && dj.chain == old(dj.chain)
    ensures res == Ok ==>
      && i < |dj.Content()| && dj.Content()[i] == DirEntry(dj.fs.g.fsType, NewEntry(dj.fn), tm, dcl)
      && Registered(old(dj.Content()), dj.fn, i, dj.Content()[i := NewEntry(dj.fn)])
      && NewDirAt(dj.fs.g, dj.fs.Vol(), tm, dcl, dj.sclust)
      && Extended(old(dj.fs.FatSeq()), [], fat1, [dcl]) && Extended(fat1, old(dj.chain), dj.fs.FatSeq(), dj.chain)
      && Holds(dj.fs.FatSeq(), [dcl]) && Apart(dj.chain, [dcl])
      && !dj.fs.wflag && dj.fs.disk == dj.fs.Vol()
    ensures old(CountRight(dj.fs.freeClst, dj.fs.FatSeq())) ==> CountRight(dj.fs.freeClst, dj.fs.FatSeq())
    ensures dcl != 0 ==> dcl < |old(dj.fs.FatSeq())| && old(dj.fs.FatSeq())[dcl] == 0
    ensures InArea(dj.fs.g, NewChain(dcl))
    ensures OnlyBeside(dj.fs.g, old(dj.fs.Vol()), dj.fs.Vol(), dj.Tbl(), NewChain(dcl))
    ensures dj.fs.winsect == old(dj.fs.winsect) || NewWindow(dj, NewChain(dcl))
    ensures res == Denied ==> FirstFree(dj.Content(), 0) == None || old(dj.fs.freeClst) == 0 || Full(dj.fs.FatSeq())
    ensures res == IntErr ==> FirstFree(dj.Content(), 0) == None || Damaged(dj.fs.FatSeq())
  {
    hide Volume.Valid, Volume.Vol, Fat, DirChain, Table, Slots, IsChain, Sectors, NewDirAt, DirEntry, NewEntry,
         Dir.OnTable, Extended;
    hide CountRight, Registered, Directory.Find, Holds, Full;
    dcl := 0;
    ghost var fat0 := dj.fs.FatSeq();
    fat1 := fat0;
    res, i := dj.Find();
    if res == Ok {
      return Exist, i, 0, fat0;
    }
    var c := NewCluster(dj);
    if c < 2 {
      var _ := RemoveChain(dj.fs, c, 0);
      return if c == 0 then Denied else IntErr, i, 0, fat0;
    }
    dcl, fat1 := c, dj.fs.FatSeq();
    res, i := FillAndRegister(dj, c, tm, fat0);
  }

  /** f_mkdir is three legal steps on the table: ownership of every cluster survives it. */
  lemma CreateDirectoryKeepsOwned(fat0: seq<nat>, owners: map<nat, seq<nat>>, bad: set<nat>, parent: nat, child: nat,
                                  fat1: seq<nat>, dcl: nat, fat2: seq<nat>, dch: seq<nat>)
    requires Owned(fat0, owners, bad) && parent in owners && child !in owners
    requires Extended(fat0, [], fat1, [dcl]) && Extended(fat1, owners[parent], fat2, dch)
    ensures Owned(fat2, owners[child := [dcl]][parent := dch], bad)
  {
    hide Owned, Extended;
    var o1 := owners[child := []];
    StepKeepsOwned(State(fat0, owners), New(child), bad);
    ExtendKeepsOwned(fat0, o1, bad, child, fat1, [dcl]);
    assert o1[child := [dcl]] == owners[child := [dcl]];
    ExtendKeepsOwned(fat1, owners[child := [dcl]], bad, parent, fat2, dch);
  }
}
