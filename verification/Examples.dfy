/** The smallest volume the examples need. */
module TinyVolume {
  import opened Bytes
  import opened Geometry
  import opened FatTable

  /** A FAT12 volume with two clusters of one sector each and one sector of root directory, wherever they lie. */
  ghost predicate IsTiny(g: Geo) {
    g.Valid() && g.fsType.FAT12? && g.nFats == 1 && g.csize == 1 && g.nFatent == 4 && g.nRootdir == 16
  }

  /** There is one: boot record, table, root directory and two clusters, a sector each. */
  lemma TinyExists()
    ensures IsTiny(Geo(FAT12, 1, 1, 4, 1, 16, 0, 1, 2, 3, 5))
  {
    assert RunLength(1, 0) == 0;
    assert RunLength(1, 1) == 1;
    assert RunLength(1, 2) == 2;
  }

  ghost predicate Blank(sec: Sector) {
    forall i :: 0 <= i < SECTOR_SIZE ==> sec[i] == 0
  }

  /** The bytes that hold the entries of clusters 2 and 3. */
  predicate HoldsBytes(sec: Sector, b3: byte, b4: byte, b5: byte) {
    sec[3] == b3 && sec[4] == b4 && sec[5] == b5
  }

  /** An image of it: a table with these bytes, and blank clusters. */
  ghost predicate IsImage(g: Geo, vol: seq<Sector>, b3: byte, b4: byte, b5: byte) {
    && |vol| == g.devSize && (g.fatbase < |vol| ==> HoldsBytes(vol[g.fatbase], b3, b4, b5))
    && forall s :: g.database <= s < |vol| ==> Blank(vol[s])
  }

  /** Where its parts are. */
  lemma TinyGeometry(g: Geo)
    requires IsTiny(g)
    ensures g.csize == 1 && g.nFatent == 4 && g.RootSectors() == 1 && g.dirbase + 1 == g.database
    ensures g.database + 2 <= g.devSize
    ensures g.OutsideFats(g.dirbase) && g.volbase + 1 < g.dirbase && g.InFat1(g.fatbase) && g.fatbase < g.dirbase
    ensures g.FirstSector(2) == g.database && g.FirstSector(3) == g.database + 1
  {
    assert RunLength(1, 0) == 0;
    assert RunLength(1, 1) == 1;
    assert RunLength(1, 2) == 2;
  }

  /** Two entries of 12 bits in three bytes. */
  predicate Pair12(b3: byte, b4: byte, b5: byte, v2: nat, v3: nat) {
    v2 == Value(FAT12, false, b3, b4, 0, 0) && v3 == Value(FAT12, true, b4, b5, 0, 0)
  }

  lemma TinyEntries(g: Geo, vol: seq<Sector>, b3: byte, b4: byte, b5: byte, v2: nat, v3: nat)
    requires IsTiny(g) && IsImage(g, vol, b3, b4, b5) && Pair12(b3, b4, b5, v2, v3)
    ensures IsVolume(g, vol) && Entry(g, vol, 2) == v2 && Entry(g, vol, 3) == v3
  {
    hide RunLength, TableBytes, Value, Blank;
    TinyGeometry(g);
  }

  lemma TinyTable(g: Geo, vol: seq<Sector>, b3: byte, b4: byte, b5: byte, v2: nat, v3: nat)
    requires IsTiny(g) && IsImage(g, vol, b3, b4, b5) && Pair12(b3, b4, b5, v2, v3)
    ensures IsVolume(g, vol) && Mirrored(g, vol) && |Fat(g, vol)| == 4 && Fat(g, vol)[2] == v2 && Fat(g, vol)[3] == v3
  {
    hide RunLength, TableBytes, IsImage, Entry, Pair12;
    TinyEntries(g, vol, b3, b4, b5, v2, v3);
  }
}

/**
  The smallest volumes on which three results about the driver fail: a write
  that f_sync does not complete, a buffer left on a freed sector, and a file
  reported as stored that is not.
  */
module Examples {
  import opened Bytes
  import opened Geometry
  import opened FatTable
  import opened FileSystem
  import opened Chains
  import opened Allocation
  import opened FileData
  import opened TinyVolume
  import opened Entries
  import opened Directory
  import opened DirTable
  import opened Directories
  import opened Files
  import opened Sessions
  import opened ImageTool

  const NAME: Name11 := [0x41, 0x20, 0x20, 0x20, 0x20, 0x20, 0x20, 0x20, 0x20, 0x20, 0x20]

  method MakeImage(g: Geo, b3: byte, b4: byte, b5: byte, root: Sector) returns (vol: seq<Sector>)
    requires IsTiny(g)
    ensures IsImage(g, vol, b3, b4, b5) && g.dirbase < |vol| && vol[g.dirbase] == root
  {
    hide Geo.Valid, RunLength, TableBytes;
    TinyGeometry(g);
    ZeroIsBlank();
    var table: Sector := [0xF8, 0xFF, 0xFF, b3, b4, b5] + seq(SECTOR_SIZE - 6, _ => 0);
    vol := seq(g.devSize, s => if s == g.fatbase then table else if s == g.dirbase then root else ZERO_SECTOR);
  }

  /** With one sector a cluster, the sectors of a chain are those of its clusters. */
  lemma OneSectorEach(g: Geo, ch: seq<nat>, i: nat)
    requires g.csize == 1 && InArea(g, ch) && i < |ch|
    ensures |Sectors(g, ch)| == |ch| && Sectors(g, ch)[i] == g.FirstSector(ch[i])
  {
    hide Sectors, RunLength;
    RunLengthIsProduct(1, i);
    RunLengthIsProduct(1, |ch|);
    SectorsAt(g, ch, i, 0);
  }

  lemma BlankClusters(g: Geo, vol: seq<Sector>, b3: byte, b4: byte, b5: byte)
    requires IsTiny(g) && IsImage(g, vol, b3, b4, b5)
    ensures g.database + 1 < |vol| && Blank(vol[g.database]) && Blank(vol[g.database + 1])
  {
    hide Geo.Valid, RunLength, TableBytes, Blank, HoldsBytes;
    TinyGeometry(g);
  }

  /** Blank sectors hold blank bytes. */
  lemma BlankRep(vol: seq<Sector>, secs: seq<nat>, n: nat)
    requires n <= |secs| * SECTOR_SIZE && forall k :: 0 <= k < |secs| ==> secs[k] < |vol| && Blank(vol[secs[k]])
    ensures FileRep(vol, secs, seq(n, _ => 0))
  {
    forall i | 0 <= i < n
      ensures ByteAt(vol, secs, i) == 0
    {
      assert Blank(vol[secs[i / SECTOR_SIZE]]);
    }
  }

  lemma TwoClusters(fat: seq<nat>, g: Geo)
    requires IsTiny(g) && |fat| == 4 && fat[2] == 3 && fat[3] == 0xFFF
    ensures Holds(fat, [2, 3]) && InArea(g, [2, 3])
  {
    assert Link(fat, [2, 3], 0);
  }

  /** A file of two clusters, both full. */
  method TwoClusterFile(g: Geo, root: Sector) returns (f: File)
    requires IsTiny(g)
    ensures f.fs.g == g && g.csize == 1 && f.Valid() && f.chain == [2, 3] && |f.contents| == 1024 && f.fptr == 0
    ensures f.isOpen && f.err == Ok && f.canRead && f.canWrite && fresh(f) && fresh(f.fs) && fresh(f.buf)
    ensures fresh(f.fs.win)
  {
    hide IsTiny, IsImage, Pair12, Geo.Valid, Mirrored, RunLength, Fat, Sectors, FileRep, Volume.Valid, Volume.Vol,
         File.Valid, Blank, Value;
    var disk := MakeImage(g, 0x03, 0xF0, 0xFF, root);
    Bytes23();
    TinyTable(g, disk, 0x03, 0xF0, 0xFF, 3, 0xFFF);
    BlankClusters(g, disk, 0x03, 0xF0, 0xFF);
    TwoClusters(Fat(g, disk), g);
    TinyGeometry(g);
    OneSectorEach(g, [2, 3], 0);
    OneSectorEach(g, [2, 3], 1);
    BlankRep(disk, Sectors(g, [2, 3]), 1024);
    var fs := new Volume(g, true, disk, 0, 0xFFFF_FFFF, 0xFFFF_FFFF);
    f := new File(fs, true, true, false, g.dirbase, 0, 2, 1024, [2, 3], seq(1024, _ => 0));
  }

  lemma OneEach()
    ensures ClustersFor(1, 512) == 1 && RunLength(1, 1) == 1
  {
    assert RunLength(1, 0) == 0;
    ClustersOf(1, 512, 0);
  }

  lemma Bytes23()
    ensures Pair12(0x03, 0xF0, 0xFF, 3, 0xFFF)
  {
  }

  /** Read on into the second cluster, then back to its start: the buffer still shows a sector of it. */
  method AtBoundary(g: Geo, root: Sector) returns (f: File)
    requires IsTiny(g)
    ensures f.fs.g == g && g.csize == 1 && f.Valid() && f.chain == [2, 3] && f.isOpen && f.err == Ok && f.canWrite
    ensures f.fptr == 512 && |f.contents| == 1024 && 1 < |f.Secs()| && f.sect == f.Secs()[1] && f.sect != 0
    ensures fresh(f) && fresh(f.fs) && fresh(f.buf) && fresh(f.fs.win)
  {
    hide IsTiny, Geo.Valid, RunLength, Fat, Sectors, Volume.Valid, Volume.Vol, File.Valid, CluIdx, OnlyChain, OfChain,
         Extended, Cut, ClustersFor, Bound, GrowTo, File.Room, Volume.FatSeq, Damaged, File.NoSpace, File.Quiet, InArea;
    f := TwoClusterFile(g, root);
    OneEach();
    var res, data := f.Read(600);
    f.ShowsSector();
    f.RoomNone(ClustersFor(1, 512));
    res := f.Seek(512);
  }

  /**
    f_truncate at a cluster boundary: the buffer is left on a sector of a cluster
    that is free now.
    */
  method BufferLost(g: Geo, root: Sector) returns (f: File)
    requires IsTiny(g)
    ensures f.Valid() && f.chain == [2] && f.isOpen && f.err == Ok && !f.dirty && f.sect != 0 && !f.Home()
  {
    hide IsTiny, Geo.Valid, RunLength, Fat, Sectors, Volume.Valid, Volume.Vol, File.Valid, OnlyChain, OfChain, Cut,
         ClustersFor, File.Quiet, InArea;
    f := AtBoundary(g, root);
    OneEach();
    var res := f.Truncate();
  }

  // ---- a write that f_sync does not complete

  /** The root directory of the example: one entry, of a file of 100 bytes in cluster 2. */
  function OneEntry(): Entry32 {
    RecordEntry(FAT12, NewEntry(NAME), 2, 100, 0)
  }

  /** One cluster is used, the other has the error value. */
  ghost predicate LastTaken(fat: seq<nat>) {
    |fat| == 4 && fat[2] == 0xFFF && fat[3] == 1
  }

  lemma OneCluster(fat: seq<nat>, g: Geo)
    requires IsTiny(g) && LastTaken(fat)
    ensures Holds(fat, [2]) && InArea(g, [2])
  {
  }

  lemma BytesEnd1()
    ensures Pair12(0xFF, 0x1F, 0x00, 0xFFF, 1)
  {
  }

  /** A file of 100 bytes, its cluster the last free one: the entry of the other cluster has the error value. */
  method SmallFile(g: Geo) returns (f: File)
    requires IsTiny(g)
    ensures f.fs.g == g && g.csize == 1 && f.Valid() && f.Placed() && f.chain == [2] && |f.contents| == 100
    ensures f.fptr == 0 && !f.modified
    ensures LastTaken(f.fs.FatSeq()) && f.fs.freeClst == 0xFFFF_FFFF
    ensures f.dirSect == g.dirbase && f.dirPtr == 0 && f.EntryOn(f.fs.Vol()) == OneEntry()
    ensures f.isOpen && f.err == Ok && f.canWrite && fresh(f) && fresh(f.fs) && fresh(f.buf) && fresh(f.fs.win)
  {
    hide IsTiny, IsImage, Pair12, Geo.Valid, Mirrored, RunLength, Fat, Sectors, FileRep, Volume.Valid, Volume.Vol,
         File.Valid, Blank, Value, OneEntry;
    var disk := MakeImage(g, 0xFF, 0x1F, 0x00, OneEntry() + seq(SECTOR_SIZE - ENTRY_SIZE, _ => 0));
    BytesEnd1();
    TinyTable(g, disk, 0xFF, 0x1F, 0x00, 0xFFF, 1);
    BlankClusters(g, disk, 0xFF, 0x1F, 0x00);
    OneCluster(Fat(g, disk), g);
    TinyGeometry(g);
    OneSectorEach(g, [2], 0);
    BlankRep(disk, Sectors(g, [2]), 100);
    var fs := new Volume(g, true, disk, 0, 0xFFFF_FFFF, 0xFFFF_FFFF);
    f := new File(fs, true, true, false, g.dirbase, 0, 2, 100, [2], seq(100, _ => 0));
  }

  /** Looking for a second cluster meets the error value. */
  lemma ErrorMet(mark: nat, fat: seq<nat>, last: nat)
    requires LastTaken(fat)
    ensures LastOf([2]) < |fat|
    ensures GrowTo(mark, fat, [2], last, 0xFFFF_FFFF, 2) == Growth(BadEntry, fat, [2], last, 0xFFFF_FFFF)
  {
  }

  lemma TwoNeeded()
    ensures ClustersFor(1, 600) == 2 && Bound(1, 1) == 512
  {
    assert RunLength(1, 0) == 0 && RunLength(1, 1) == 1 && RunLength(1, 2) == 2;
    ClustersOf(1, 600, 1);
  }

  lemma TellsHundred()
    ensures FileSize(OneEntry()) == 100
  {
    hide RecordEntry, NewEntry, LdClust, FileSize;
    RecordedEntryReads(FAT12, NewEntry(NAME), 2, 100, 0);
  }

  lemma SizeIs(f: File)
    requires f.Valid()
    ensures f.objsize == |f.contents|
  {
    hide File.Core;
  }

  /** f_write of 600 bytes over a file of 100 bytes with one cluster, and no free one: it is aborted after 512 bytes. */
  method AbortedWrite(g: Geo) returns (f: File, res: Result, bw: nat)
    requires IsTiny(g)
    ensures f.Valid() && res == IntErr && bw == 512 && f.objsize == 512 && !f.modified && f.isOpen
    ensures f.Placed() && f.EntryOn(f.fs.Vol()) == OneEntry()
    ensures fresh(f) && fresh(f.fs) && fresh(f.buf) && fresh(f.fs.win)
  {
    hide IsTiny, Geo.Valid, RunLength, Fat, Sectors, Volume.Valid, Volume.Vol, File.Valid, CluIdx, OfChain, Extended,
         ClustersFor, Bound, GrowTo, Damaged, File.NoSpace, File.Quiet, File.Barren, File.FlaggedBy, InArea, LastTaken,
         OneEntry, Splice;
    f := SmallFile(g);
    TinyGeometry(g);
    TwoNeeded();
    ErrorMet(EndMark(g.fsType), f.fs.FatSeq(), f.fs.lastClst);
    res, bw := f.Write(seq(600, _ => 1));
    SizeIs(f);
  }

  /** f_sync after it does nothing, and the entry still tells 100 bytes. */
  method LostWrite(g: Geo) returns (f: File, res: Result, bw: nat, synced: Result)
    requires IsTiny(g)
    ensures f.Valid() && res == IntErr && bw == 512 && f.objsize == 512
    ensures synced == Ok && f.Placed() && FileSize(f.EntryOn(f.fs.Vol())) == 100
  {
    hide IsTiny, Geo.Valid, Fat, Sectors, Volume.Valid, Volume.Vol, File.Valid, FileSize, OneEntry;
    TellsHundred();
    f, res, bw := AbortedWrite(g);
    synced := f.Sync(0);
  }

  // ---- clusters that f_close loses

  /** The root directory of the example: one entry, of an empty file. */
  function EmptyEntry(): Entry32 {
    NewEntry(NAME)
  }

  lemma TellsNothing()
    ensures FileSize(EmptyEntry()) == 0 && LdClust(FAT12, EmptyEntry()) == 0
  {
    hide LdClust;
    NewEntryReads(FAT12, NAME);
  }

  /** One cluster is free, the other has the error value. */
  ghost predicate FirstFreeOnly(fat: seq<nat>) {
    |fat| == 4 && fat[2] == 0 && fat[3] == 1
  }

  lemma BytesFree1()
    ensures Pair12(0x00, 0x10, 0x00, 0, 1)
  {
  }

  /** An empty file on a volume with one free cluster; the entry of the other cluster has the error value. */
  method EmptyFile(g: Geo) returns (f: File)
    requires IsTiny(g)
    ensures f.fs.g == g && g.csize == 1 && f.Valid() && f.Placed() && f.chain == [] && f.contents == [] && f.fptr == 0
    ensures FirstFreeOnly(f.fs.FatSeq()) && f.fs.freeClst == 0xFFFF_FFFF && f.fs.lastClst == 0xFFFF_FFFF && !f.modified
    ensures f.dirSect == g.dirbase && f.dirPtr == 0 && f.EntryOn(f.fs.Vol()) == EmptyEntry() && f.sect == 0
    ensures f.isOpen && f.err == Ok && f.canWrite && fresh(f) && fresh(f.fs) && fresh(f.buf) && fresh(f.fs.win)
  {
    hide IsTiny, IsImage, Pair12, Geo.Valid, Mirrored, RunLength, Fat, Volume.Valid, Volume.Vol, File.Valid, Blank,
         Value, EmptyEntry;
    var disk := MakeImage(g, 0x00, 0x10, 0x00, EmptyEntry() + seq(SECTOR_SIZE - ENTRY_SIZE, _ => 0));
    BytesFree1();
    TinyTable(g, disk, 0x00, 0x10, 0x00, 0, 1);
    TinyGeometry(g);
    NoSectors(g, disk);
    var fs := new Volume(g, true, disk, 0, 0xFFFF_FFFF, 0xFFFF_FFFF);
    f := new File(fs, true, true, false, g.dirbase, 0, 0, 0, [], []);
  }

  lemma NoSectors(g: Geo, vol: seq<Sector>)
    ensures InArea(g, []) && FileRep(vol, Sectors(g, []), [])
  {
  }

  /** The first cluster is found, the second search meets the error value. */
  lemma SecondFails(mark: nat, fat: seq<nat>)
    requires FirstFreeOnly(fat) && mark >= 4
    ensures GrowTo(mark, fat, [], 0xFFFF_FFFF, 0xFFFF_FFFF, 2) ==
      Growth(BadEntry, fat[2 := mark], [2], 2, 0xFFFF_FFFF)
  {
    assert Visited(4, 1, 0) == 2;
    assert Choice(fat, 0, 0xFFFF_FFFF, 0xFFFF_FFFF) == 2;
    assert Linked(fat, 0, 2, mark) == fat[2 := mark];
    assert Choice(fat[2 := mark], 2, 2, 0xFFFF_FFFF) == 1;
    assert LastOf([2]) == 2 && [] + [2] == [2];
  }

  /** f_write of 600 bytes into the empty file: it gets one cluster and is aborted. */
  method AbortedFirst(g: Geo) returns (f: File, res: Result, bw: nat)
    requires IsTiny(g)
    ensures f.fs.g == g && f.Valid() && res == IntErr && bw == 512 && f.chain == [2] && f.fs.FatSeq()[2] != 0
    ensures !f.modified && f.isOpen && f.Placed() && f.EntryOn(f.fs.Vol()) == EmptyEntry()
    ensures fresh(f) && fresh(f.fs) && fresh(f.buf) && fresh(f.fs.win)
  {
    hide IsTiny, Geo.Valid, RunLength, Fat, Sectors, Volume.Valid, Volume.Vol, File.Valid, CluIdx, OfChain, Extended,
         ClustersFor, Bound, GrowTo, Damaged, File.NoSpace, File.Quiet, File.Barren, File.FlaggedBy, File.AbortedBy,
         InArea, FirstFreeOnly, EmptyEntry, Splice;
    f := EmptyFile(g);
    TinyGeometry(g);
    TwoNeeded();
    EndMarkEnds(g, 0);
    FourEntries(f.fs.FatSeq());
    SecondFails(EndMark(g.fsType), f.fs.FatSeq());
    res, bw := f.Write(seq(600, _ => 1));
    PlacedInRoot(f);
  }

  /** An entry in the root directory lies apart from the clusters. */
  lemma PlacedInRoot(f: File)
    requires IsTiny(f.fs.g) && f.Core() && f.dirSect == f.fs.g.dirbase && f.dirPtr == 0
    requires f.sect == 0 || f.sect in f.Secs()
    ensures f.Placed()
  {
    hide Geo.Valid, RunLength, Sectors, FileState;
    TinyGeometry(f.fs.g);
    if f.dirSect in f.Secs() {
      SectorsInData(f.fs.g, f.chain, f.dirSect);
    }
    if f.sect in f.Secs() {
      SectorsInData(f.fs.g, f.chain, f.sect);
    }
  }

  lemma FourEntries(fat: seq<nat>)
    requires FirstFreeOnly(fat)
    ensures |fat| == 4
  {
  }

  /** f_close after it: the cluster stays used, and the entry tells no cluster and no bytes. */
  method LeakedCluster(g: Geo) returns (f: File, res: Result, bw: nat, closed: Result)
    requires IsTiny(g)
    ensures f.Valid() && res == IntErr && bw == 512 && closed == Ok && !f.isOpen
    ensures f.chain == [2] && 2 < |f.fs.FatSeq()| && f.fs.FatSeq()[2] != 0
    ensures f.Placed() && FileSize(f.EntryOn(f.fs.Vol())) == 0 && LdClust(FAT12, f.EntryOn(f.fs.Vol())) == 0
  {
    hide IsTiny, Geo.Valid, Fat, Sectors, Volume.Valid, Volume.Vol, File.Valid, FileSize, LdClust, EmptyEntry;
    TellsNothing();
    f, res, bw := AbortedFirst(g);
    closed := f.Close(0);
  }

  // ---- a file that is reported as stored

  lemma BytesFull()
    ensures Pair12(0xFF, 0xFF, 0xFF, 0xFFF, 0xFFF)
  {
  }

  lemma BothUsed(fat: seq<nat>)
    requires |fat| == 4 && fat[2] == 0xFFF && fat[3] == 0xFFF
    ensures Full(fat) && !Damaged(fat) && Owned(fat, map[0 := []], {2, 3})
  {
  }

  lemma EmptyDir(t: FatType, slots: seq<Entry32>, name: Name11)
    requires |slots| > 0 && forall i :: 0 <= i < |slots| ==> slots[i][0] == 0
    ensures WellFormed(slots) && Directory.Find(slots, name, 0) == None && FirstFree(slots, 0).Some?
    ensures Catalog(t, slots, {}, map[0 := []])
  {
    hide Matches, HasBit;
  }

  lemma BlankSlots(vol: seq<Sector>, tbl: seq<nat>)
    requires OnVolume(vol, tbl) && |tbl| > 0 && forall k :: 0 <= k < |tbl| ==> Blank(vol[tbl[k]])
    ensures |Slots(vol, tbl)| > 0 && forall i :: 0 <= i < |Slots(vol, tbl)| ==> Slots(vol, tbl)[i][0] == 0
  {
    forall i | 0 <= i < |Slots(vol, tbl)|
      ensures Slots(vol, tbl)[i][0] == 0
    {
      assert Blank(vol[tbl[i / SLOTS_PER_SECTOR]]);
    }
  }

  /** The root directory has one sector. */
  lemma RootSector(g: Geo, fat: seq<nat>)
    requires IsTiny(g)
    ensures InArea(g, []) && DirChain(g, fat, 0, []) && Table(g, 0, []) == [g.dirbase]
  {
    hide Geo.Valid, RunLength, TableBytes;
    TinyGeometry(g);
    assert CountUp(g.dirbase, 1) == [g.dirbase];
  }

  /** An empty root directory on a volume whose two clusters are in use elsewhere. */
  method FullVolume(g: Geo) returns (dj: Dir, ghost s: Session)
    requires IsTiny(g)
    ensures dj.fs.g == g && s == Session(dj, map[], map[0 := []], {2, 3}) && s.Valid() && NewOnFull(dj) && dj.fn == NAME
    ensures fresh(dj) && fresh(dj.fs) && fresh(dj.fs.win)
  {
    hide IsTiny, IsImage, Pair12, Geo.Valid, Mirrored, RunLength, Fat, Volume.Valid, Volume.Vol, Dir.Valid, Dir.Content,
         Blank, Value, Slots, Table;
    var disk := MakeImage(g, 0xFF, 0xFF, 0xFF, ZERO_SECTOR);
    BytesFull();
    TinyTable(g, disk, 0xFF, 0xFF, 0xFF, 0xFFF, 0xFFF);
    BlankClusters(g, disk, 0xFF, 0xFF, 0xFF);
    TinyGeometry(g);
    BothUsed(Fat(g, disk));
    RootSector(g, Fat(g, disk));
    ZeroIsBlank();
    BlankSlots(disk, [g.dirbase]);
    EmptyDir(g.fsType, Slots(disk, [g.dirbase]), NAME);
    var fs := new Volume(g, true, disk, 0, 0xFFFF_FFFF, 0xFFFF_FFFF);
    dj := new Dir(fs, 0, NAME, []);
    s := Session(dj, map[], map[0 := []], {2, 3});
    dj.Relinked();
  }

  lemma ZeroIsBlank()
    ensures Blank(ZERO_SECTOR)
  {
  }

  /** 4 GiB for a volume without a free cluster: InsertFile reports success, and nothing is stored. */
  method FalseSuccess(g: Geo, source: seq<byte>) returns (ok: bool, dj: Dir, ghost t: Session, ghost i: nat)
    requires IsTiny(g) && |source| == 0x1_0000_0000
    ensures ok && t.Valid() && t.dj == dj && !Stored(t, i, source)
  {
    hide IsTiny, Geo.Valid, Volume.Valid, Volume.Vol, Dir.Valid, Dir.Content, Session.Valid, NewOnFull, Stored,
         SameBoot;
    ghost var s;
    dj, s := FullVolume(g);
    KnownWhenAbsent(s);
    ghost var kept;
    ghost var made;
    ok, made, i, t, kept := InsertFile(s, dj, source, 0, 0);
  }

  lemma KnownWhenAbsent(s: Session)
    requires s.dj.Valid() && NewOnFull(s.dj) && s.dj.fn == NAME
    ensures s.Openable(CREATE, []) && Proper(NAME)
  {
    hide Dir.Valid, Dir.Content, Directory.Find, FirstFree, Full, Damaged;
  }
}
