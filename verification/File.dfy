/**
  Open files (FIL): a cursor into a cluster chain and a private buffer of one
  sector whose changes are written back late.
  */
module Files {
  import opened Bytes
  import opened Geometry
  import opened FatTable
  import opened FileSystem
  import opened Chains
  import opened Allocation
  import opened FileData
  import opened Entries

  /** Device sectors that take no part in the table or the window. */
  ghost predicate FreeStanding(fs: Volume, s: nat, cc: nat)
    reads fs`winsect
  {
    && s + cc <= fs.g.devSize
    && fs.g.fatbase + fs.g.FatArea() <= s
    && !(s <= fs.winsect < s + cc)
  }

  /** disk_write past the window. */
  method DiskWrite(fs: Volume, s: nat, data: seq<byte>)
    requires fs.Valid() && |data| % SECTOR_SIZE == 0 && FreeStanding(fs, s, |data| / SECTOR_SIZE)
    modifies fs`disk
    ensures fs.Valid() && fs.Vol() == WriteRun(old(fs.Vol()), s, data)
    ensures fs.FatSeq() == old(fs.FatSeq())
  {
    ghost var vol := fs.Vol();
    fs.disk := WriteRun(fs.disk, s, data);
    assert fs.Vol() == WriteRun(vol, s, data);
    FatFrame(fs.g, vol, fs.Vol());
  }

  /** disk_read past the window. */
  method DiskRead(fs: Volume, s: nat, cc: nat) returns (data: seq<byte>)
    requires fs.Valid() && FreeStanding(fs, s, cc)
    ensures data == ReadRun(fs.Vol(), s, cc)
  {
    data := ReadRun(fs.disk, s, cc);
  }

  lemma FsInfoBeforeFat(fs: Volume)
    requires fs.Valid()
    ensures !fs.fsiOff ==> fs.g.volbase + 1 < fs.g.fatbase
  {
  }

  /** What f_write tries to write at a position: a file cannot reach 4 GiB. */
  function WriteLength(fptr: nat, n: nat): nat
    requires fptr < 0x1_0000_0000
  {
    if fptr + n < 0x1_0000_0000 then n else 0xFFFF_FFFF - fptr
  }

  function Least(a: nat, b: nat): nat {
    if a < b then a else b
  }

  /**
    One round of f_write at position p stores w of n bytes: whole sectors on the
    device, less in the buffer, which is dirty then.
    */
  predicate PieceAt(p: nat, w: nat, n: nat, was: bool, dirty: bool, table: bool) {
    && (w == 0 ==> p % SECTOR_SIZE == 0 && dirty == was && table)
    && (w > 0 && p % SECTOR_SIZE != 0 ==> dirty && table && w == Least(SECTOR_SIZE - p % SECTOR_SIZE, n))
    && (w > 0 && p % SECTOR_SIZE == 0 ==>
          && (w < n ==> (p + w) % SECTOR_SIZE == 0)
          && ((p + w) % SECTOR_SIZE == 0 ==> !dirty && w >= SECTOR_SIZE))
  }

  /**
    bw bytes written from position p up to a sector boundary are left in the
    buffer if they fill up a sector from its middle, and then nothing but the
    table has changed on the volume (table); otherwise they are on the device.
    */
  predicate LeftAt(p: nat, bw: nat, was: bool, dirty: bool, table: bool) {
    && (bw == 0 ==> dirty == was && table)
    && (bw > 0 && (p + bw) % SECTOR_SIZE == 0 ==>
          dirty == (p % SECTOR_SIZE != 0 && bw < SECTOR_SIZE) && (dirty ==> table))
  }

  /** One round more. */
  lemma LeftOn(p: nat, bw: nat, w: nat, n: nat, d0: bool, d1: bool, d2: bool, t1: bool, t12: bool, t2: bool)
    requires LeftAt(p, bw, d0, d1, t1) && PieceAt(p + bw, w, n, d1, d2, t12) && (t1 && t12 ==> t2)
    requires bw > 0 ==> (p + bw) % SECTOR_SIZE == 0
    ensures LeftAt(p, bw + w, d0, d2, t2) && (w < n ==> (p + (bw + w)) % SECTOR_SIZE == 0)
  {
    if bw == 0 && w > 0 && p % SECTOR_SIZE != 0 && (p + w) % SECTOR_SIZE == 0 {
      FillsUp(p, w);
    }
  }

  lemma ShortPiece(p: nat, n: nat)
    requires p % SECTOR_SIZE == 0 && 0 < n < SECTOR_SIZE
    ensures Least(SECTOR_SIZE - p % SECTOR_SIZE, n) == n && (p + n) % SECTOR_SIZE != 0
  {
  }

  lemma PieceStopped(p: nat, n: nat, dirty: bool)
    requires p % SECTOR_SIZE == 0
    ensures PieceAt(p, 0, n, dirty, dirty, true)
  {
  }

  lemma PieceWhole(p: nat, w: nat, n: nat, was: bool, dirty: bool, table: bool)
    requires p % SECTOR_SIZE == 0 && w > 0 && (w < n ==> (p + w) % SECTOR_SIZE == 0)
    requires (p + w) % SECTOR_SIZE == 0 ==> !dirty && w >= SECTOR_SIZE
    ensures PieceAt(p, w, n, was, dirty, table)
  {
  }

  lemma PiecePart(p: nat, n: nat, was: bool)
    requires p % SECTOR_SIZE != 0 && n > 0
    ensures PieceAt(p, Least(SECTOR_SIZE - p % SECTOR_SIZE, n), n, was, true, true)
  {
  }

  lemma ChainOn(g: Geo, vol0: seq<Sector>, fat0: seq<nat>, ch0: seq<nat>, vol1: seq<Sector>, fat1: seq<nat>,
                ch1: seq<nat>, vol2: seq<Sector>, fat2: seq<nat>, ch2: seq<nat>, s: nat)
    requires IsVolume(g, vol0) && IsVolume(g, vol1) && IsVolume(g, vol2) && Holds(fat0, ch0)
    requires Extended(fat0, ch0, fat1, ch1) && Extended(fat1, ch1, fat2, ch2) && InArea(g, ch1) && InArea(g, ch2)
    requires OnlyChain(g, vol0, vol1, ch1) && OnlyChain(g, vol1, vol2, ch2)
    ensures Extended(fat0, ch0, fat2, ch2) && OnlyChain(g, vol0, vol2, ch2)
    ensures s in Sectors(g, ch1) ==> s in Sectors(g, ch2)
  {
    hide Sectors, Extended, OnlyChain, Holds;
    ExtendedTrans(fat0, ch0, fat1, ch1, fat2, ch2);
    ExtendedPrefix(fat1, ch1, fat2, ch2);
    OnlyChainTrans(g, vol0, vol1, ch1, vol2, ch2);
    SectorStays(g, ch1, ch2, s);
  }

  lemma SpliceOn(bytes: seq<byte>, p: nat, data: seq<byte>, bw: nat, w: nat)
    requires p <= |bytes| && bw + w <= |data|
    ensures Splice(Splice(bytes, p, data[..bw]), p + bw, data[bw..][..w]) == Splice(bytes, p, data[..bw + w])
  {
    SpliceTwice(bytes, p, data[..bw], data[bw..][..w]);
    assert data[..bw] + data[bw..][..w] == data[..bw + w];
  }

  lemma FillsUp(p: nat, w: nat)
    ensures w <= SECTOR_SIZE - p % SECTOR_SIZE && p % SECTOR_SIZE != 0 ==> w < SECTOR_SIZE
    ensures w == SECTOR_SIZE - p % SECTOR_SIZE ==> (p + w) % SECTOR_SIZE == 0
  {
  }

  lemma OutsideTrans(g: Geo, vol0: seq<Sector>, vol1: seq<Sector>, vol2: seq<Sector>)
    requires IsVolume(g, vol0) && IsVolume(g, vol1) && IsVolume(g, vol2)
    requires SameOutsideFats(g, vol0, vol1) && SameOutsideFats(g, vol1, vol2)
    ensures SameOutsideFats(g, vol0, vol2)
  {
  }

  class File {
    const fs: Volume
    const buf: array<byte>
    const canRead: bool
    const canWrite: bool
    const dirSect: nat         // where the directory entry is
    const dirPtr: nat          // and at which offset of that sector
    var isOpen: bool           // the object is valid
    var err: Result            // abort flag
    var modified: bool         // FA_MODIFIED
    var dirty: bool            // FA_DIRTY: buf is to be written back
    var sclust: nat            // first cluster, 0: none
    var objsize: dword         // file size
    var fptr: dword            // read/write pointer
    var clust: nat             // cluster of byte fptr - 1
    var sect: nat              // sector in buf, 0: none
    ghost var chain: seq<nat>      // the clusters of the file
    ghost var contents: seq<byte>  // the bytes of the file

    ghost predicate Attached()
      reads fs`disk, fs`winsect, fs`wflag, fs.win
      ensures Attached() ==> fs.Valid()
    {
      fs.Valid() && buf.Length == SECTOR_SIZE && buf != fs.win
    }

    /** All of the invariant that does not depend on where the cursor is. */
    ghost predicate Core()
      reads `chain, `contents, `sect, `dirty, buf, fs`disk, fs`winsect, fs`wflag, fs.win
      ensures Core() ==> Attached() && InArea(fs.g, chain)
    {
      Attached() && FileState(fs.g, fs.Vol(), fs.winsect, chain, contents, sect, dirty, buf[..])
    }

    /** The sectors of the file, in order. */
    ghost function Secs(): seq<nat>
      requires InArea(fs.g, chain)
      reads `chain
    {
      Sectors(fs.g, chain)
    }

    /** The logical volume with the buffer laid over it. */
    ghost function View(): (view: seq<Sector>)
      requires Attached() && sect < fs.g.devSize
      reads `sect, buf, fs`disk, fs`winsect, fs`wflag, fs.win
      ensures |view| == fs.g.devSize
    {
      Over(fs.Vol(), sect, buf[..])
    }

    /** The size and start cluster f_sync will record. */
    ghost predicate Recorded()
      reads `chain, `contents, `sclust, `objsize
    {
      |contents| == objsize && sclust == (if chain == [] then 0 else chain[0])
    }

    ghost predicate Sized()
      reads `chain, `contents, `sclust, `objsize, `fptr
    {
      Recorded() && fptr <= objsize
    }

    /** The cluster of byte fptr - 1 is known. */
    ghost predicate OnCluster()
      reads `chain, `fptr, `clust
    {
      fs.g.csize > 0 &&
      (fptr > 0 ==>
        var i := CluIdx(fs.g.csize, (fptr - 1) / SECTOR_SIZE);
        i < |chain| && clust == chain[i])
    }

    /** Inside a sector, the buffer shows that sector. */
    ghost predicate OnSector()
      requires InArea(fs.g, chain)
      reads `chain, `fptr, `sect
    {
      fptr % SECTOR_SIZE != 0 ==> fptr / SECTOR_SIZE < |Secs()| && sect == Secs()[fptr / SECTOR_SIZE]
    }

    /** The buffer shows no other sector than one of the file. */
    ghost predicate Home()
      requires InArea(fs.g, chain)
      reads `chain, `sect
    {
      OfChain(fs.g, chain, sect)
    }

    /** An operation that was aborted leaves the file, but not the cursor, in order. */
    ghost predicate Valid()
      reads this, buf, fs`disk, fs`winsect, fs`wflag, fs.win
      ensures Valid() ==> Core()
      ensures Valid() && err == Ok ==> fptr <= objsize == |contents| && fs.g.csize > 0
    {
      Core() && Recorded() && (err == Ok ==> Sized() && OnCluster() && OnSector())
    }

    /** The end of f_open: a cursor at the top of a file whose entry gives start cluster and size. */
    constructor (fs: Volume, read: bool, write: bool, created: bool, dirSect: nat, dirPtr: nat,
                 start: nat, size: dword, ghost ch: seq<nat>, ghost bytes: seq<byte>)
      requires fs.Valid() && Holds(fs.FatSeq(), ch) && InArea(fs.g, ch)
      requires start == (if ch == [] then 0 else ch[0])
      requires |bytes| == size && FileRep(fs.Vol(), Sectors(fs.g, ch), bytes)
      requires fs.winsect !in Sectors(fs.g, ch)
      ensures Valid() && fresh(this.buf) && this.fs == fs
      ensures isOpen && err == Ok && canRead == read && canWrite == write && modified == created && !dirty
      ensures this.dirSect == dirSect && this.dirPtr == dirPtr
      ensures chain == ch && contents == bytes && fptr == 0 && sect == 0
    {
      this.fs := fs;
      canRead, canWrite, modified, dirty := read, write, created, false;
      this.dirSect, this.dirPtr := dirSect, dirPtr;
      isOpen, err := true, Ok;
      sclust, objsize, fptr, clust, sect := start, size, 0, 0, 0;
      buf := new byte[SECTOR_SIZE](_ => 0);
      chain, contents := ch, bytes;
    }

    /** The window is dirty only if it was, or the chain is longer now. */
    twostate predicate Tidy()
      reads `chain, fs`wflag
    {
      |chain| >= |old(chain)| && (fs.wflag ==> old(fs.wflag) || |chain| > |old(chain)|)
    }

    /**
      The modified flag stays set; where it is clear, f_sync would record the same
      as before, but for the start cluster an aborted file without one has got.
      */
    twostate predicate Quiet()
      reads this, fs`wflag
    {
      && (!modified ==> !old(modified) && (sclust == old(sclust) || (old(sclust) == 0 && err != Ok)))
      && (err == Ok && !modified ==> old(err) == Ok && objsize == old(objsize) && (dirty ==> old(dirty)))
      && (err == old(err) && !modified ==> (fs.wflag ==> old(fs.wflag)))
    }

    /** A growing chain keeps its start. */
    twostate lemma SameStart()
      requires old(Recorded()) && Recorded() && old(chain) <= chain
      ensures sclust == old(sclust) || old(sclust) == 0
    {
    }

    lemma SectorsCover()
      requires Core()
      ensures |contents| <= |Secs()| * SECTOR_SIZE
    {
      StateSectors(fs.g, fs.Vol(), fs.winsect, chain, contents, sect, dirty, buf[..]);
    }

    lemma CoreChain()
      requires Core()
      ensures Holds(fs.FatSeq(), chain)
    {
      StateChain(fs.g, fs.Vol(), fs.winsect, chain, contents, sect, dirty, buf[..]);
    }

    /** The buffer shows a sector of this file, or one that is none of secs. */
    ghost predicate Untaken(secs: seq<nat>)
      requires InArea(fs.g, chain)
      reads `chain, `sect
    {
      Home() || sect !in secs
    }

    /** Nothing but the table, the sectors of this file, that of its entry and FSInfo has changed. */
    twostate predicate OnlyOwnChanged()
      requires fs.Attached() && old(fs.Attached())
      reads `chain, fs`disk, fs`winsect, fs`wflag, fs.win
    {
      InArea(fs.g, chain) && fs.ChangedOnly(Secs() + [dirSect])
    }

    /**
      An open file, dirty buffer and all, is not disturbed by changes elsewhere:
      its links stay, and none of its sectors, nor the buffered one, is among those changed.
      */
    twostate lemma Undisturbed(secs: seq<nat>)
      requires unchanged(this) && unchanged(buf) && old(Valid()) && Attached() && Holds(fs.FatSeq(), chain)
      requires InArea(fs.g, chain) && fs.ChangedOnly(secs) && Untaken(secs) && forall s :: s in Secs() ==> s !in secs
      ensures Valid()
    {
      hide Volume.Valid, Volume.Vol, Fat, Sectors, FileState, Holds, CluIdx;
      assert buf[..] == old(buf[..]) && old(Core());
      StateUndisturbed(fs.g, old(fs.Vol()), old(fs.winsect), chain, contents, sect, dirty, buf[..], fs.Vol(),
                       fs.winsect, secs);
    }

    twostate lemma HeldBefore()
      requires old(Valid())
      ensures old(Holds(fs.FatSeq(), chain))
    {
      hide Volume.Valid, Volume.Vol, Fat, Sectors, FileRep, Holds, CluIdx;
      assert old(Core());
    }

    /** The buffer hides no sector but those of the file. */
    twostate lemma ViewElsewhere(s: nat)
      requires old(Valid()) && old(sect) < fs.g.devSize && s < fs.g.devSize && s !in old(Secs())
      ensures old(View())[s] == old(fs.Vol())[s]
    {
      hide Volume.Valid, Volume.Vol, Fat, Sectors, Holds, FileRep;
    }

    lemma BufferNumber()
      requires InArea(fs.g, chain)
      ensures Home() ==> sect == 0 || exists k :: 0 <= k < |Secs()| && sect == Secs()[k]
    {
      hide Sectors;
      if sect in Secs() {
        var k :| 0 <= k < |Secs()| && sect == Secs()[k];
      }
    }

    lemma LastInTable()
      requires Core()
      ensures |fs.FatSeq()| >= 3 && LastOf(chain) < |fs.FatSeq()|
    {
      hide Volume.Vol, Fat, Sectors, FileRep;
      CoreChain();
    }

    /** What growing the chain to target clusters comes to. */
    ghost function Room(target: nat): Growth
      requires Core()
      reads `chain, `contents, `sect, `dirty, buf, fs`disk, fs`winsect, fs`wflag, fs`lastClst, fs`freeClst, fs.win
    {
      LastInTable();
      GrowTo(EndMark(fs.g.fsType), fs.FatSeq(), chain, fs.lastClst, fs.freeClst, target)
    }

    /** The present state as the outcome of growing. */
    ghost function Now(end: GrowEnd): Growth
      requires Attached()
      reads `chain, fs`disk, fs`winsect, fs`wflag, fs`lastClst, fs`freeClst, fs.win
    {
      Growth(end, fs.FatSeq(), chain, fs.lastClst, fs.freeClst)
    }

    /** A write of n bytes would meet an error value in the table when it looks for a free cluster. */
    ghost predicate WriteAborts(n: nat)
      requires Core()
      reads this, buf, fs`disk, fs`winsect, fs`wflag, fs`lastClst, fs`freeClst, fs.win
    {
      fs.g.csize > 0 && Room(ClustersFor(fs.g.csize, fptr + WriteLength(fptr, n))).end == BadEntry
    }

    /** Not on a table without error values. */
    lemma AbortsWhenDamaged(n: nat)
      requires Core()
      ensures WriteAborts(n) ==> Damaged(fs.FatSeq())
    {
      hide Volume.Valid, Volume.Vol, Fat, FileState, GrowTo, Damaged;
      LastInTable();
      if fs.g.csize > 0 {
        EndMarkEnds(fs.g, 0);
        GrowMeets(EndMark(fs.g.fsType), fs.FatSeq(), chain, fs.lastClst, fs.freeClst,
                  ClustersFor(fs.g.csize, fptr + WriteLength(fptr, n)));
      }
    }

    /** No error values in the table, and a right free count. */
    ghost predicate Sound()
      requires fs.Attached()
      reads fs`disk, fs`winsect, fs`wflag, fs`freeClst, fs.win
    {
      !Damaged(fs.FatSeq()) && CountRight(fs.freeClst, fs.FatSeq())
    }

    /** The clusters this file can have. */
    ghost function Reserve(): nat
      requires fs.Attached()
      reads `chain, fs`disk, fs`winsect, fs`wflag, fs.win
    {
      |chain| + FreeCount(fs.FatSeq())
    }

    /** On a sound volume the chain can grow by all free clusters, and no further. */
    lemma RoomFits(target: nat)
      requires Core() && Sound()
      ensures Room(target).end == (if target <= Reserve() then Reached else NoRoom)
      ensures var g := Room(target);
        && |g.ch| == (if target <= |chain| then |chain| else if g.end == Reached then target else Reserve())
        && |g.ch| + FreeCount(g.fat) == Reserve() && !Damaged(g.fat) && CountRight(g.free, g.fat)
    {
      hide Volume.Valid, Volume.Vol, Fat, FileState, Damaged, CountRight, FreeCount;
      CoreChain();
      LastInTable();
      EndMarkEnds(fs.g, 0);
      GrowFits(EndMark(fs.g.fsType), fs.FatSeq(), chain, fs.lastClst, fs.freeClst, target);
    }

    /** The next create_chain for this file finds no room. */
    ghost predicate NoMore()
      requires Core()
      reads this, buf, fs`disk, fs`winsect, fs`wflag, fs`lastClst, fs`freeClst, fs.win
    {
      LastInTable();
      Choice(fs.FatSeq(), LastOf(chain), fs.lastClst, fs.freeClst) == 0
    }

    /** No write can store a byte any more: not allowed, aborted, at the limit, or at the end of the last cluster. */
    ghost predicate Stuck()
      requires Core()
      reads this, buf, fs`disk, fs`winsect, fs`wflag, fs`lastClst, fs`freeClst, fs.win
    {
      || !canWrite || err != Ok || fptr == 0xFFFF_FFFF
      || (fs.g.csize > 0 && fptr == Bound(fs.g.csize, |chain|) && NoMore())
    }

    /** What running out of room comes to. */
    lemma RoomStops(target: nat)
      requires Core()
      ensures Room(target).end == NoRoom ==> var g := Room(target);
        |g.fat| == |fs.FatSeq()| && LastOf(g.ch) < |g.fat| && Choice(g.fat, LastOf(g.ch), g.last, g.free) == 0
    {
      hide Volume.Valid, Volume.Vol, Fat, FileState, Choice;
      LastInTable();
      GrowStops(EndMark(fs.g.fsType), fs.FatSeq(), chain, fs.lastClst, fs.freeClst, target);
    }

    /** At the end of the last cluster, a write gets what NoMore says. */
    lemma StuckHere(n: nat)
      requires Core() && fs.g.csize > 0 && fptr == Bound(fs.g.csize, |chain|) && NoMore()
      ensures Room(ClustersFor(fs.g.csize, fptr + n)) == Now(if n == 0 then Reached else NoRoom)
    {
      hide Volume.Valid, Volume.Vol, Fat, FileState, Choice, CluIdx, Bound;
      LastInTable();
      ClustersHold(fs.g.csize, fptr + n);
      var c := ClustersFor(fs.g.csize, fptr + n);
      if c <= |chain| {
        RoomNone(c);
        BoundMono(fs.g.csize, c, |chain|);
      } else {
        if n == 0 {
          BoundMono(fs.g.csize, |chain|, c - 1);
        }
      }
    }

    /** An empty file without clusters on a volume that has none to give. */
    ghost predicate Barren()
      requires fs.Attached()
      reads this, fs`disk, fs`winsect, fs`wflag, fs.win
    {
      chain == [] && contents == [] && fptr == 0 && Full(fs.FatSeq()) && !Damaged(fs.FatSeq())
    }

    lemma NothingToGive(target: nat)
      requires Core() && Barren()
      ensures Room(target) == Now(if target == 0 then Reached else NoRoom)
    {
      hide Volume.Valid, Volume.Vol, Fat, FileState, Damaged;
      LastInTable();
      SearchMeaning(fs.FatSeq(), 0, fs.lastClst);
    }

    /** A short write leaves nothing to follow. */
    twostate predicate FinalBy(n: nat, bw: nat)
      requires Valid() && old(Valid())
      reads this, buf, fs, fs.win
    {
      isOpen ==> (bw < n ==> Stuck()) && (old(Stuck()) ==> bw == 0 && Stuck())
    }

    /** What f_write does to the modified flag, and when it is aborted. */
    twostate predicate FlaggedBy(n: nat, res: Result)
      requires old(Valid())
      reads this, buf, fs, fs.win
    {
      isOpen && old(err) == Ok && canWrite ==>
        && (res != Ok <==> old(WriteAborts(n))) && (modified <==> old(modified) || res == Ok)
        && err == res && (res != Ok ==> res == IntErr)
    }

    /**
      How an aborted f_write of n bytes leaves the file: with the clusters it
      could get, the cursor at their end, and the bw bytes it stored before.
      */
    twostate predicate AbortedBy(n: nat, bw: nat)
      requires old(Valid()) && Attached()
      reads this, fs, fs.win
    {
      isOpen && old(err) == Ok && canWrite && err != Ok ==>
        && fs.g.csize > 0 && chain == old(Room(ClustersFor(fs.g.csize, fptr + WriteLength(fptr, n)))).ch
        && fptr == Bound(fs.g.csize, |chain|) == old(fptr) + bw && fptr % SECTOR_SIZE == 0
        && LeftBehind(bw) && Tidy() && old(chain) <= chain
    }

    /** What f_write of n bytes does besides what its user sees. */
    twostate predicate WrittenBy(n: nat, res: Result, bw: nat)
      requires Valid() && old(Valid())
      reads this, buf, fs, fs.win
    {
      FlaggedBy(n, res) && FinalBy(n, bw) && AbortedBy(n, bw) && (old(Barren()) ==> bw == 0 && Barren())
    }

    /** Nothing is allocated for clusters the chain has. */
    lemma RoomNone(target: nat)
      requires Core()
      ensures target <= |chain| ==> Room(target) == Now(Reached)
    {
      hide GrowTo, Volume.Vol, FileState, Fat;
      LastInTable();
      if target <= |chain| {
        GrowNone(EndMark(fs.g.fsType), fs.FatSeq(), chain, fs.lastClst, fs.freeClst, target);
      }
    }

    lemma BarrenStays(n: nat)
      requires Core() && Barren() && fs.g.csize > 0
      ensures Room(ClustersFor(fs.g.csize, fptr + n)) == Now(if n == 0 then Reached else NoRoom)
      ensures Bound(fs.g.csize, |chain|) == 0
      ensures Splice(contents, fptr, []) == []
    {
      hide Volume.Valid, Volume.Vol, Fat, FileState, Damaged, Full, GrowTo, Room;
      NothingToGive(ClustersFor(fs.g.csize, fptr + n));
      BoundNext(fs.g.csize, 0);
    }

    /** Write the dirty buffer back. */
    method FlushBuf()
      requires Core() && dirty
      modifies fs`disk, `dirty
      ensures Core() && !dirty
      ensures fs.Vol() == old(View()) && View() == old(View()) && fs.FatSeq() == old(fs.FatSeq())
      ensures OnlyThisFile(old(fs.Vol()))
    {
      hide Volume.Valid, Volume.Vol, Fat, Sectors, FileRep, Holds;
      hide FileState, Over;
      StateSectors(fs.g, fs.Vol(), fs.winsect, chain, contents, sect, dirty, buf[..]);
      StateFlushed(fs.g, fs.Vol(), fs.winsect, chain, contents, sect, buf[..]);
      StateBuffer(fs.g, fs.Vol(), fs.winsect, chain, contents, sect, dirty, buf[..]);
      WriteOne(fs.Vol(), sect, buf[..]);
      DiskWrite(fs, sect, buf[..]);
      dirty := false;
    }

    /** create_chain on the chain of this file: from its j-th cluster c, or from nothing. */
    method Stretch(c: nat, ghost j: nat) returns (r: nat)
      requires Core()
      requires if c == 0 then chain == [] else j < |chain| && c == chain[j]
      modifies fs`disk, fs`wflag, fs`winsect, fs`freeClst, fs`lastClst, fs`fsiDirty, fs.win, `chain
      ensures Core() && SameOutsideFats(fs.g, old(fs.Vol()), fs.Vol())
      ensures Extended(old(fs.FatSeq()), old(chain), fs.FatSeq(), chain)
      ensures r < 2 ==> chain == old(chain) && (c == 0 || j + 1 == |chain|)
      ensures r == 0 ==> fs.freeClst == 0 || Full(fs.FatSeq())
      ensures r == 1 ==> Damaged(fs.FatSeq())
      ensures r >= 2 ==> var i := if c == 0 then 0 else j + 1;
        i < |chain| && r == chain[i] && |chain| == (if i < |old(chain)| then |old(chain)| else i + 1)
      ensures old(CountRight(fs.freeClst, fs.FatSeq())) ==> CountRight(fs.freeClst, fs.FatSeq())
      ensures fs.winsect == old(fs.winsect) || fs.g.InFat1(fs.winsect)
      ensures old(Room(if c == 0 then 1 else j + 2)) ==
        Now(if r == 0 then NoRoom else if r == 1 then BadEntry else Reached)
      ensures Tidy()
    {
      hide Volume.Valid, Volume.Vol, Fat, FileState, IsChain, Full, FirstChoice, CountRight, Extended,
           SameOutsideFats, Choice, GrowTo;
      ghost var fat, vol, winsect := fs.FatSeq(), fs.Vol(), fs.winsect;
      ghost var mark, last, free := EndMark(fs.g.fsType), fs.lastClst, fs.freeClst;
      StateChain(fs.g, vol, winsect, chain, contents, sect, dirty, buf[..]);
      LastInTable();
      if c != 0 {
        ChainEntry(fat, chain, j);
      }
      if c == 0 || j + 1 == |chain| {
        GrowOne(mark, fat, chain, last, free, Choice(fat, LastOf(chain), last, free));
      } else {
        GrowNone(mark, fat, chain, last, free, j + 2);
      }
      r := CreateChain(fs, c);
      if r >= 2 && (c == 0 || j + 1 == |chain|) {
        EndMarkEnds(fs.g, 0);
        ExtendByOne(fat, chain, r, EndMark(fs.g.fsType));
        chain := chain + [r];
      } else {
        ExtendedRefl(fat, old(chain));
      }
      StateAcross(fs.g, vol, winsect, old(chain), contents, sect, dirty, buf[..], fs.Vol(), fs.winsect, chain);
    }

    // ---- writing

    /** The cursor's byte and the one before it lie in cluster clust. */
    ghost predicate InCluster()
      reads `chain, `fptr, `clust
    {
      fs.g.csize > 0 &&
      var i := CluIdx(fs.g.csize, fptr / SECTOR_SIZE);
      i < |chain| && clust == chain[i]
    }

    /** Nothing but the table and the sectors of this file differs. */
    ghost predicate OnlyThisFile(vol: seq<Sector>)
      requires Attached() && IsVolume(fs.g, vol) && InArea(fs.g, chain)
      reads `chain, fs`disk, fs`winsect, fs`wflag, fs.win
    {
      OnlyChain(fs.g, vol, fs.Vol(), chain)
    }

    /** The cluster the next byte goes to: followed, stretched or newly started.  0: disk full, 1: damaged table. */
    method FollowForWrite() returns (clst: nat)
      requires Core() && Sized() && OnCluster()
      requires fptr % SECTOR_SIZE == 0 && CluOfs(fs.g.csize, fptr / SECTOR_SIZE) == 0
      modifies fs`disk, fs`wflag, fs`winsect, fs`freeClst, fs`lastClst, fs`fsiDirty, fs.win, `sclust, `clust, `chain
      ensures Core() && Sized() && SameOutsideFats(fs.g, old(fs.Vol()), fs.Vol())
      ensures Extended(old(fs.FatSeq()), old(chain), fs.FatSeq(), chain)
      ensures clst < 2 ==> chain == old(chain) && OnCluster()
      ensures clst == 0 ==> fs.freeClst == 0 || Full(fs.FatSeq())
      ensures clst == 1 ==> Damaged(fs.FatSeq())
      ensures clst >= 2 ==> InCluster()
      ensures old(CountRight(fs.freeClst, fs.FatSeq())) ==> CountRight(fs.freeClst, fs.FatSeq())
      ensures fs.winsect == old(fs.winsect) || fs.g.InFat1(fs.winsect)
      ensures clst < 2 ==> fptr == Bound(fs.g.csize, |chain|)
      ensures old(Room(ClustersFor(fs.g.csize, fptr + 1))) ==
        Now(if clst == 0 then NoRoom else if clst == 1 then BadEntry else Reached)
      ensures Tidy()
    {
      hide Volume.Valid, Volume.Vol, Fat, FileState, IsChain, Full, CountRight, CluIdx, CluOfs, GrowTo, Damaged,
           Extended;
      ghost var k := fptr / SECTOR_SIZE;
      ghost var i := CluIdx(fs.g.csize, k);
      CoreChain();
      ExtendedRefl(fs.FatSeq(), chain);
      Locate(fs.g.csize, k);
      RoomNone(i + 1);
      if fptr == 0 {
        LocateUnique(fs.g.csize, 0, 0, 0);
        clst := sclust;
        if clst == 0 {
          clst := Stretch(0, 0);
        } else {
          ChainEntry(fs.FatSeq(), chain, 0);
        }
      } else {
        ByteBefore(fptr);
        PreviousCluster(fs.g.csize, k);
        clst := Stretch(clust, i - 1);
      }
      ExtendedPrefix(old(fs.FatSeq()), old(chain), fs.FatSeq(), chain);
      if clst == 0 || clst == 1 {
        return;
      }
      clust := clst;
      if sclust == 0 {
        sclust := clst;
      }
    }

    /** Fill the buffer with a sector of the file. */
    method LoadBuf(s: nat)
      requires Core() && !dirty && s in Secs()
      modifies buf, `sect
      ensures Core() && sect == s
    {
      hide Volume.Valid, Volume.Vol, Fat, Sectors, FileState;
      StateSectors(fs.g, fs.Vol(), fs.winsect, chain, contents, sect, dirty, buf[..]);
      StateLoaded(fs.g, fs.Vol(), fs.winsect, chain, contents, sect, buf[..], s);
      var data := DiskRead(fs, s, 1);
      ReadOne(fs.Vol(), s);
      CopyInto(buf, 0, data);
      PatchAll(old(buf[..]), data);
      sect := s;
    }

    /** disk_write of a run of the file past the clean buffer, which is refreshed if it shows one of the sectors. */
    method TransferOut(s: nat, run: seq<byte>, ghost k: nat)
      requires Core() && !dirty && |run| % SECTOR_SIZE == 0 && fs.g.database <= s
      requires Consecutive(Secs(), k, s, |run| / SECTOR_SIZE) && s + |run| / SECTOR_SIZE <= fs.g.devSize
      requires k * SECTOR_SIZE <= |contents|
      modifies fs`disk, buf, `dirty, `contents
      ensures Core() && !dirty && contents == Splice(old(contents), k * SECTOR_SIZE, run)
      ensures fs.FatSeq() == old(fs.FatSeq()) && OnlyThisFile(old(fs.Vol()))
    {
      hide Volume.Valid, Volume.Vol, Fat, FileState, Sectors, Splice, WriteRun, Consecutive, Patch;
      ghost var vol, buf0 := fs.Vol(), buf[..];
      var cc := |run| / SECTOR_SIZE;
      StateSectors(fs.g, vol, fs.winsect, chain, contents, sect, dirty, buf[..]);
      StateBuffer(fs.g, vol, fs.winsect, chain, contents, sect, dirty, buf[..]);
      if s <= fs.winsect < s + cc {
        RunOfFile(Secs(), k, s, cc, fs.winsect);
      }
      DiskWrite(fs, s, run);
      Sub32Range(sect, s, cc);
      if Sub32(sect, s) < cc {
        var o := (sect - s) * SECTOR_SIZE;
        PatchAll(buf[..], run[o..o + SECTOR_SIZE]);
        CopyInto(buf, 0, run[o..o + SECTOR_SIZE]);
        dirty := false;
      }
      StateDirect(fs.g, vol, fs.winsect, chain, contents, sect, buf0, k, s, run, buf[..]);
      RunOnly(vol, Secs(), k, s, run);
      contents := Splice(contents, k * SECTOR_SIZE, run);
    }

    /** Move the cursor past n bytes that are in the file by now. */
    method Advance(n: nat)
      requires sclust == (if chain == [] then 0 else chain[0])
      requires |contents| == (if fptr + n > objsize then fptr + n else objsize) < 0x1_0000_0000
      modifies `fptr, `objsize
      ensures Sized() && fptr == old(fptr) + n
    {
      fptr := fptr + n;
      objsize := if fptr > objsize then fptr else objsize;
    }

    /** Only the table has changed, nothing was stored. */
    twostate predicate OnlyTableChanged()
      requires Attached() && old(Attached())
      reads fs`disk, fs`winsect, fs`wflag, fs.win
    {
      SameOutsideFats(fs.g, old(fs.Vol()), fs.Vol())
    }

    /** Where a round of the loop of f_write leaves its bytes. */
    twostate predicate PieceLeft(wcnt: nat, n: nat)
      requires Attached() && old(Attached())
      reads `dirty, fs`disk, fs`winsect, fs`wflag, fs.win
    {
      PieceAt(old(fptr), wcnt, n, old(dirty), dirty, OnlyTableChanged())
    }

    /** Where the loop leaves them. */
    twostate predicate LeftBehind(bw: nat)
      requires Attached() && old(Attached())
      reads `dirty, fs`disk, fs`winsect, fs`wflag, fs.win
    {
      LeftAt(old(fptr), bw, old(dirty), dirty, OnlyTableChanged())
    }

    /** Whole sectors go from the caller's data to the device, up to the end of the cluster. */
    method WriteDirect(s: nat, csect: nat, data: seq<byte>) returns (wcnt: nat)
      requires Core() && Sized() && !dirty && InCluster() && fptr % SECTOR_SIZE == 0
      requires csect == CluOfs(fs.g.csize, fptr / SECTOR_SIZE) && s == fs.g.FirstSector(clust) + csect
      requires |data| >= SECTOR_SIZE && fptr + |data| < 0x1_0000_0000
      modifies fs`disk, buf, `dirty, `fptr, `objsize, `contents
      ensures Core() && Sized() && OnCluster() && OnSector()
      ensures 0 < wcnt <= |data| && fptr == old(fptr) + wcnt
      ensures contents == Splice(old(contents), old(fptr), data[..wcnt])
      ensures fs.FatSeq() == old(fs.FatSeq()) && OnlyThisFile(old(fs.Vol()))
      ensures !dirty && wcnt >= SECTOR_SIZE && fptr % SECTOR_SIZE == 0
    {
      hide Volume.Valid, Volume.Vol, Fat, FileState, Sectors, CluIdx, CluOfs, Splice, OnlyThisFile, Consecutive;
      ghost var k := fptr / SECTOR_SIZE;
      Locate(fs.g.csize, k);
      var cc := |data| / SECTOR_SIZE;
      if csect + cc > fs.g.csize {
        cc := fs.g.csize - csect;
      }
      RunInCluster(fs.g, chain, k, cc);
      WholeSectors(fptr, cc);
      SameClusterFurther(fs.g.csize, k, cc - 1);
      wcnt := SECTOR_SIZE * cc;
      TransferOut(s, data[..wcnt], k);
      Advance(wcnt);
    }

    /** A piece of the caller's data goes into the buffer, up to the end of sector s. */
    method WritePart(s: nat, data: seq<byte>) returns (wcnt: nat)
      requires Core() && Sized() && InCluster()
      requires fptr / SECTOR_SIZE < |Secs()| && s == Secs()[fptr / SECTOR_SIZE]
      requires sect == s || (!dirty && fptr % SECTOR_SIZE == 0 && fptr == objsize)
      requires data != [] && fptr + |data| < 0x1_0000_0000
      modifies buf, `sect, `dirty, `fptr, `objsize, `contents
      ensures Core() && Sized() && OnCluster() && OnSector()
      ensures 0 < wcnt <= |data| && fptr == old(fptr) + wcnt
      ensures contents == Splice(old(contents), old(fptr), data[..wcnt])
      ensures Home() && sect in Secs()
      ensures dirty && wcnt == Least(SECTOR_SIZE - old(fptr) % SECTOR_SIZE, |data|)
    {
      hide Volume.Valid, Volume.Vol, Fat, FileState, Sectors, CluIdx, CluOfs, Splice, Patch;
      ghost var k, o := fptr / SECTOR_SIZE, fptr % SECTOR_SIZE;
      wcnt := SECTOR_SIZE - fptr % SECTOR_SIZE;
      if wcnt > |data| {
        wcnt := |data|;
      }
      WithinSector(fptr, wcnt);
      StatePatched(fs.g, fs.Vol(), fs.winsect, chain, contents, sect, dirty, buf[..], k, o, s, data[..wcnt]);
      sect := s;
      CopyInto(buf, fptr % SECTOR_SIZE, data[..wcnt]);
      dirty := true;
      contents := Splice(contents, fptr, data[..wcnt]);
      Advance(wcnt);
    }

    /** Why a write may stop short: the cached count says so, or no cluster is free. */
    ghost predicate NoSpace()
      requires Attached()
      reads fs`disk, fs`winsect, fs`wflag, fs`freeClst, fs.win
    {
      fs.freeClst == 0 || Full(fs.FatSeq())
    }

    /** At a sector boundary: get the cluster if one starts here. */
    method EnterCluster() returns (res: Result, stop: bool)
      requires Valid() && err == Ok && fptr % SECTOR_SIZE == 0
      modifies fs`disk, fs`wflag, fs`winsect, fs`freeClst, fs`lastClst, fs`fsiDirty, fs.win
      modifies `sclust, `clust, `chain, `err
      ensures Core() && Sized() && SameOutsideFats(fs.g, old(fs.Vol()), fs.Vol())
      ensures Extended(old(fs.FatSeq()), old(chain), fs.FatSeq(), chain)
      ensures stop ==> Valid() && if res == Ok then NoSpace() else res == IntErr && Damaged(fs.FatSeq())
      ensures !stop ==> res == Ok && InCluster()
      ensures err == if res == Ok then old(err) else res
      ensures old(CountRight(fs.freeClst, fs.FatSeq())) ==> CountRight(fs.freeClst, fs.FatSeq())
      ensures fs.winsect == old(fs.winsect) || fs.g.InFat1(fs.winsect)
      ensures stop ==> fptr == Bound(fs.g.csize, |chain|)
      ensures old(Room(ClustersFor(fs.g.csize, fptr + 1))) ==
        Now(if !stop then Reached else if res == Ok then NoRoom else BadEntry)
      ensures Tidy()
    {
      hide Volume.Valid, Volume.Vol, Fat, FileState, Sectors, CluIdx, CluOfs, CountRight, Full, Bound, GrowTo, Extended,
           Damaged;
      CoreChain();
      ExtendedRefl(fs.FatSeq(), chain);
      OffsetIs(fs.g.csize, fptr / SECTOR_SIZE);
      if fptr / SECTOR_SIZE % fs.g.csize == 0 {
        var clst := FollowForWrite();
        if clst == 0 {
          return Ok, true;
        }
        if clst == 1 {
          err := IntErr;
          return IntErr, true;
        }
      } else {
        RoomNone(ClustersFor(fs.g.csize, fptr + 1));
        SameCluster(fs.g.csize, fptr / SECTOR_SIZE);
        ByteBefore(fptr);
      }
      return Ok, false;
    }

    /** At a sector boundary: the cluster, and the old buffer is written back. */
    method EnterSector() returns (res: Result, stop: bool)
      requires Valid() && err == Ok && fptr % SECTOR_SIZE == 0
      modifies fs`disk, fs`wflag, fs`winsect, fs`freeClst, fs`lastClst, fs`fsiDirty, fs.win
      modifies `sclust, `clust, `chain, `dirty, `err
      ensures Core() && Sized() && OnlyThisFile(old(fs.Vol()))
      ensures Extended(old(fs.FatSeq()), old(chain), fs.FatSeq(), chain)
      ensures stop ==> Valid() && dirty == old(dirty)
      ensures stop ==> if res == Ok then NoSpace() else res == IntErr && Damaged(fs.FatSeq())
      ensures !stop ==> res == Ok && InCluster() && !dirty
      ensures err == if res == Ok then old(err) else res
      ensures old(CountRight(fs.freeClst, fs.FatSeq())) ==> CountRight(fs.freeClst, fs.FatSeq())
      ensures fs.winsect == old(fs.winsect) || fs.g.InFat1(fs.winsect)
      ensures stop ==> fptr == Bound(fs.g.csize, |chain|)
      ensures old(Room(ClustersFor(fs.g.csize, fptr + 1))) ==
        Now(if !stop then Reached else if res == Ok then NoRoom else BadEntry)
      ensures stop ==> OnlyTableChanged()
      ensures Tidy()
    {
      hide Volume.Valid, Volume.Vol, Fat, FileState, Sectors, CluIdx, CluOfs, CountRight, Full, Bound, GrowTo, Extended,
           Damaged, OnlyChain;
      hide NoSpace, ClustersFor;
      ghost var vol := fs.Vol();
      res, stop := EnterCluster();
      ghost var vol1 := fs.Vol();
      TableOnly(fs.g, vol, vol1, chain);
      if !stop && dirty {
        FlushBuf();
        OnlyChainTrans(fs.g, vol, vol1, chain, fs.Vol(), chain);
      }
    }

    /** The sector of the cursor, from the cluster of the cursor. */
    method SectorHere() returns (s: nat)
      requires Core() && InCluster()
      ensures fptr / SECTOR_SIZE < |Secs()| && s == Secs()[fptr / SECTOR_SIZE]
      ensures s == fs.g.FirstSector(clust) + CluOfs(fs.g.csize, fptr / SECTOR_SIZE)
    {
      hide Volume.Valid, Volume.Vol, Fat, FileState, Sectors, CluIdx, CluOfs;
      ghost var k := fptr / SECTOR_SIZE;
      Locate(fs.g.csize, k);
      OffsetIs(fs.g.csize, k);
      RunInCluster(fs.g, chain, k, 0);
      s := Clst2Sect(fs.g, clust);
      s := s + fptr / SECTOR_SIZE % fs.g.csize;
    }

    /** One round of the loop of f_write at a sector boundary, once the cluster is known. */
    method WriteSector(data: seq<byte>) returns (wcnt: nat)
      requires Core() && Sized() && InCluster() && !dirty && fptr % SECTOR_SIZE == 0
      requires data != [] && fptr + |data| < 0x1_0000_0000
      modifies fs`disk, buf, `sect, `dirty, `fptr, `objsize, `contents
      ensures Core() && Sized() && OnCluster() && OnSector()
      ensures 0 < wcnt <= |data| && fptr == old(fptr) + wcnt
      ensures contents == Splice(old(contents), old(fptr), data[..wcnt])
      ensures old(Home()) ==> Home()
      ensures fs.FatSeq() == old(fs.FatSeq()) && OnlyThisFile(old(fs.Vol()))
      ensures sect == old(sect) || sect in Secs()
      ensures (wcnt < |data| ==> fptr % SECTOR_SIZE == 0) && (fptr % SECTOR_SIZE == 0 ==> !dirty && wcnt >= SECTOR_SIZE)
    {
      hide Volume.Valid, Volume.Vol, Fat, FileState, Sectors, CluIdx, CluOfs, Splice, Least, OnlyChain,
           OfChain;
      var s := SectorHere();
      if |data| / SECTOR_SIZE > 0 {
        OffsetIs(fs.g.csize, fptr / SECTOR_SIZE);
        wcnt := WriteDirect(s, fptr / SECTOR_SIZE % fs.g.csize, data);
      } else {
        OnlyChainRefl(fs.g, fs.Vol(), chain);
        if sect != s && fptr < objsize {
          LoadBuf(s);
        }
        ShortPiece(fptr, |data|);
        wcnt := WritePart(s, data);
      }
    }

    lemma NothingLeft()
      requires Attached()
      ensures SameOutsideFats(fs.g, fs.Vol(), fs.Vol()) && LeftAt(fptr, 0, dirty, dirty, true)
    {
    }

    /** One round of the loop of f_write inside a sector. */
    method WriteInside(data: seq<byte>) returns (wcnt: nat)
      requires Valid() && err == Ok && fptr % SECTOR_SIZE != 0 && data != [] && fptr + |data| < 0x1_0000_0000
      modifies buf, `sect, `dirty, `fptr, `objsize, `contents
      ensures Valid() && 0 < wcnt <= |data| && fptr == old(fptr) + wcnt
      ensures contents == Splice(old(contents), old(fptr), data[..wcnt])
      ensures Home() && sect in Secs() && PieceAt(old(fptr), wcnt, |data|, old(dirty), dirty, true)
      ensures old(Room(ClustersFor(fs.g.csize, fptr + 1))) == Now(Reached)
    {
      hide Volume.Valid, Volume.Vol, Fat, FileState, Sectors, CluIdx, CluOfs, Geo.Valid, Splice, GrowTo, Bound, Room,
           PieceAt, Core, OfChain, Holds, Least;
      ByteBefore(fptr);
      RoomNone(ClustersFor(fs.g.csize, fptr + 1));
      PiecePart(fptr, |data|, dirty);
      wcnt := WritePart(sect, data);
    }

    /** One round of the loop of f_write.  It stops when nothing was written. */
    method WriteStep(data: seq<byte>) returns (res: Result, wcnt: nat)
      requires Valid() && err == Ok && data != [] && fptr + |data| < 0x1_0000_0000
      modifies fs`disk, fs`wflag, fs`winsect, fs`freeClst, fs`lastClst, fs`fsiDirty, fs.win
      modifies buf, `sclust, `clust, `chain, `dirty, `err, `sect, `fptr, `objsize, `contents
      ensures Valid() && OnlyThisFile(old(fs.Vol()))
      ensures Extended(old(fs.FatSeq()), old(chain), fs.FatSeq(), chain)
      ensures wcnt <= |data| && fptr == old(fptr) + wcnt
      ensures contents == Splice(old(contents), old(fptr), data[..wcnt])
      ensures old(Home()) ==> Home()
      ensures wcnt == 0 && res == Ok ==> NoSpace()
      ensures res != Ok ==> wcnt == 0 && res == IntErr && Damaged(fs.FatSeq())
      ensures err == if res == Ok then old(err) else res
      ensures old(CountRight(fs.freeClst, fs.FatSeq())) ==> CountRight(fs.freeClst, fs.FatSeq())
      ensures fs.winsect == old(fs.winsect) || fs.g.InFat1(fs.winsect)
      ensures sect == old(sect) || sect in Secs()
      ensures wcnt == 0 ==> fptr == Bound(fs.g.csize, |chain|)
      ensures old(Room(ClustersFor(fs.g.csize, fptr + 1))) ==
        Now(if res != Ok then BadEntry else if wcnt == 0 then NoRoom else Reached)
      ensures PieceLeft(wcnt, |data|)
      ensures Tidy()
    {
      hide Volume.Valid, Volume.Vol, Fat, FileState, Sectors, CluIdx, CluOfs, CountRight, Extended, NoSpace,
           Geo.Valid, Splice, GrowTo, Bound, Room, Damaged, PieceAt, SameOutsideFats, Core, OnlyChain,
           OfChain, Holds, Least;
      ghost var vol := fs.Vol();
      OnlyChainRefl(fs.g, vol, chain);
      res := Ok;
      if fptr % SECTOR_SIZE == 0 {
        var stop;
        res, stop := EnterSector();
        ExtendedPrefix(old(fs.FatSeq()), old(chain), fs.FatSeq(), chain);
        OfLongerChain(fs.g, old(chain), chain, sect);
        if stop {
          SpliceNothing(contents, fptr);
          PieceStopped(fptr, |data|, dirty);
          return res, 0;
        }
        ghost var vol1 := fs.Vol();
        wcnt := WriteSector(data);
        OnlyChainTrans(fs.g, vol, vol1, chain, fs.Vol(), chain);
        PieceWhole(old(fptr), wcnt, |data|, old(dirty), dirty, OnlyTableChanged());
      } else {
        CoreChain();
        ExtendedRefl(fs.FatSeq(), chain);
        NothingLeft();
        wcnt := WriteInside(data);
      }
    }

    /** A valid cursor needs no more clusters. */
    lemma AtCursor()
      requires Valid() && err == Ok
      ensures fs.g.csize > 0 && Room(ClustersFor(fs.g.csize, fptr)) == Now(Reached)
    {
      hide GrowTo, Volume.Vol, FileState, Fat, CluIdx;
      RoomNone(ClustersFor(fs.g.csize, fptr));
    }

    /** The loop of f_write. */
    method WriteLoop(data: seq<byte>) returns (res: Result, bw: nat)
      requires Valid() && err == Ok && fptr + |data| < 0x1_0000_0000
      modifies fs`disk, fs`wflag, fs`winsect, fs`freeClst, fs`lastClst, fs`fsiDirty, fs.win
      modifies buf, `sclust, `clust, `chain, `dirty, `err, `sect, `fptr, `objsize, `contents
      ensures Valid() && OnlyThisFile(old(fs.Vol()))
      ensures old(Home()) ==> Home()
      ensures bw <= |data| && fptr == old(fptr) + bw && contents == Splice(old(contents), old(fptr), data[..bw])
      ensures Extended(old(fs.FatSeq()), old(chain), fs.FatSeq(), chain)
      ensures if res == Ok then err == Ok && (bw == |data| || NoSpace())
        else res == IntErr == err && Damaged(fs.FatSeq())
      ensures old(CountRight(fs.freeClst, fs.FatSeq())) ==> CountRight(fs.freeClst, fs.FatSeq())
      ensures fs.winsect == old(fs.winsect) || fs.g.InFat1(fs.winsect)
      ensures sect == old(sect) || sect in Secs()
      ensures old(Room(ClustersFor(fs.g.csize, fptr + |data|))) ==
        Now(if res != Ok then BadEntry else if bw == |data| then Reached else NoRoom)
      ensures res != Ok ==> bw < |data|
      ensures bw < |data| ==> fptr == Bound(fs.g.csize, |chain|)
      ensures LeftBehind(bw) && (bw < |data| ==> fptr % SECTOR_SIZE == 0)
      ensures Tidy()
    {
      hide Volume.Valid, Volume.Vol, Volume.FatSeq, Fat, FileState, Sectors, CluIdx, CluOfs, CountRight, Extended,
           NoSpace, Splice;
      hide Valid, Core, Attached, Sized, Recorded, OnCluster, OnSector, OnlyChain, OfChain, Home, Geo.Valid, IsVolume,
           InArea, Holds;
      hide GrowTo, Bound, ClustersFor, Damaged, PieceAt, LeftAt, SameOutsideFats, Least;
      ghost var fat0, chain0, vol0, contents0, fptr0 := fs.FatSeq(), chain, fs.Vol(), contents, fptr;
      AtCursor();
      ghost var goal := ClustersFor(fs.g.csize, fptr0 + |data|);
      bw := 0;
      CoreChain();
      ExtendedRefl(fat0, chain0);
      OnlyChainRefl(fs.g, vol0, chain0);
      SpliceNothing(contents, fptr);
      NothingLeft();
      while bw < |data|
        invariant fs.winsect == old(fs.winsect) || fs.g.InFat1(fs.winsect)
        invariant Valid() && OnlyThisFile(vol0) && Extended(fat0, chain0, fs.FatSeq(), chain)
        invariant old(Home()) ==> Home()
        invariant sect == old(sect) || sect in Secs()
        invariant Room(goal) == old(Room(goal))
        invariant err == Ok && bw <= |data| && fptr == fptr0 + bw
        invariant Tidy() && LeftBehind(bw) && (0 < bw < |data| ==> fptr % SECTOR_SIZE == 0)
        invariant contents == Splice(contents0, fptr0, data[..bw])
        invariant old(CountRight(fs.freeClst, fs.FatSeq())) ==> CountRight(fs.freeClst, fs.FatSeq())
      {
        ghost var fat1, chain1, vol1, sect1 := fs.FatSeq(), chain, fs.Vol(), sect;
        ghost var next := ClustersFor(fs.g.csize, fptr + 1);
        LastInTable();
        ClustersMono(fs.g.csize, fptr + 1, fptr0 + |data|);
        GrowSplit(EndMark(fs.g.fsType), fat1, chain1, fs.lastClst, fs.freeClst, next, goal);
        ghost var dirty1, table1 := dirty, OnlyTableChanged();
        var wcnt;
        label Round:
        res, wcnt := WriteStep(data[bw..]);
        if table1 && OnlyTableChanged@Round() {
          OutsideTrans(fs.g, vol0, vol1, fs.Vol());
        }
        LeftOn(fptr0, bw, wcnt, |data| - bw, old(dirty), dirty1, dirty, table1, OnlyTableChanged@Round(),
               OnlyTableChanged());
        SpliceOn(contents0, fptr0, data, bw, wcnt);
        ChainOn(fs.g, vol0, fat0, chain0, vol1, fat1, chain1, fs.Vol(), fs.FatSeq(), chain, sect1);
        bw := bw + wcnt;
        if res != Ok {
          return;
        }
        if wcnt == 0 {
          break;
        }
      }
      if bw == |data| {
        AtCursor();
      }
      res := Ok;
    }

    /**
      f_write: the bytes go over and past the contents at the cursor.  Less than
      asked is written only at the 4 GiB limit, when the disk is full or when the
      table is damaged.
      */
    method Write(buff: seq<byte>) returns (res: Result, bw: nat)
      requires Valid() && |buff| < 0x1_0000_0000
      modifies fs`disk, fs`wflag, fs`winsect, fs`freeClst, fs`lastClst, fs`fsiDirty, fs.win
      modifies buf, `sclust, `clust, `chain, `dirty, `err, `sect, `fptr, `objsize, `contents, `modified
      ensures Valid() && OnlyThisFile(old(fs.Vol()))
      ensures old(Home()) ==> Home()
      ensures !isOpen || old(err) != Ok || !canWrite ==>
        bw == 0 && contents == old(contents) && fptr == old(fptr) && err == old(err) && fs.Vol() == old(fs.Vol()) &&
        chain == old(chain) && modified == old(modified) && fs.wflag == old(fs.wflag) &&
        res == if !isOpen then InvalidObject else if err != Ok then err else Denied
      ensures isOpen && old(err) == Ok && canWrite ==>
        bw <= |buff| && fptr == old(fptr) + bw && contents == Splice(old(contents), old(fptr), buff[..bw])
      ensures old(modified) ==> modified
      ensures Extended(old(fs.FatSeq()), old(chain), fs.FatSeq(), chain)
      ensures isOpen && old(err) == Ok && canWrite && res == Ok ==>
        modified && (bw == |buff| || old(fptr) + bw == 0xFFFF_FFFF || NoSpace())
      ensures isOpen && old(err) == Ok && canWrite && res != Ok ==> res == IntErr == err && Damaged(fs.FatSeq())
      ensures old(CountRight(fs.freeClst, fs.FatSeq())) ==> CountRight(fs.freeClst, fs.FatSeq())
      ensures fs.winsect == old(fs.winsect) || fs.g.InFat1(fs.winsect)
      ensures sect == old(sect) || sect in Secs()
      ensures isOpen && old(err) == Ok && canWrite ==> (modified <==> old(modified) || res == Ok)
      ensures isOpen && old(err) == Ok && canWrite ==>
        var n := WriteLength(old(fptr), |buff|);
        && old(Room(ClustersFor(fs.g.csize, fptr + WriteLength(fptr, |buff|)))) ==
             Now(if res != Ok then BadEntry else if bw == n then Reached else NoRoom)
        && bw <= n && (res != Ok ==> bw < n) && (bw < n ==> fptr == Bound(fs.g.csize, |chain|))
      ensures Quiet()
      ensures FlaggedBy(|buff|, res)
      ensures old(Barren()) ==> bw == 0 && Barren()
      ensures AbortedBy(|buff|, bw)
    {
      hide Volume.Valid, Volume.Vol, Volume.FatSeq, Fat, FileState, Sectors, CluIdx, CluOfs, CountRight, Extended,
           NoSpace, Splice;
      hide Core, Attached, Sized, Recorded, OnCluster, OnSector, OnlyChain, OfChain, Home, Geo.Valid, IsVolume, InArea,
           Holds;
      hide GrowTo, Bound, ClustersFor, Damaged, Room, LeftBehind;
      CoreChain();
      ExtendedRefl(fs.FatSeq(), chain);
      OnlyChainRefl(fs.g, fs.Vol(), chain);
      if !isOpen {
        return InvalidObject, 0;
      }
      if err != Ok {
        return err, 0;
      }
      if !canWrite {
        return Denied, 0;
      }
      var btw: nat := |buff|;
      if (fptr + btw) % 0x1_0000_0000 < fptr {
        btw := 0xFFFF_FFFF - fptr;
      }
      assert forall k :: 0 <= k <= btw ==> buff[..btw][..k] == buff[..k];
      if Barren() {
        BarrenStays(btw);
      }
      res, bw := WriteLoop(buff[..btw]);
      ExtendedPrefix(old(fs.FatSeq()), old(chain), fs.FatSeq(), chain);
      SameStart();
      if res == Ok {
        modified := true;
      }
    }

    // ---- reading

    /** get_fat on a cluster of this file. */
    method NextLink(c: nat, ghost j: nat) returns (clst: nat)
      requires Core() && j < |chain| && c == chain[j]
      modifies fs`disk, fs`wflag, fs`winsect, fs.win
      ensures Core() && fs.Vol() == old(fs.Vol()) && fs.g.InFat1(fs.winsect)
      ensures if j + 1 < |chain| then clst == chain[j + 1] && fs.g.InRange(clst) else clst >= fs.g.nFatent
      ensures Tidy()
    {
      hide Volume.Valid, Volume.Vol, Fat, FileState, IsChain, Extended;
      ghost var vol, winsect := fs.Vol(), fs.winsect;
      CoreChain();
      ChainEntry(fs.FatSeq(), chain, j);
      clst := fs.GetFat(c);
      ExtendedRefl(fs.FatSeq(), chain);
      StateAcross(fs.g, vol, winsect, chain, contents, sect, dirty, buf[..], fs.Vol(), fs.winsect, chain);
    }

    /** The cluster of the next byte to read, along the table. */
    method FollowForRead()
      requires Core() && Sized() && OnCluster() && fptr < objsize
      requires fptr % SECTOR_SIZE == 0 && CluOfs(fs.g.csize, fptr / SECTOR_SIZE) == 0
      modifies fs`disk, fs`wflag, fs`winsect, fs.win, `clust
      ensures Core() && Sized() && InCluster() && fs.Vol() == old(fs.Vol())
      ensures fs.winsect == old(fs.winsect) || fs.g.InFat1(fs.winsect)
      ensures Tidy()
    {
      hide Volume.Valid, Volume.Vol, Fat, FileState, CluIdx, CluOfs, Sectors;
      ghost var k := fptr / SECTOR_SIZE;
      ghost var i := CluIdx(fs.g.csize, k);
      SectorsCover();
      assert k < |Secs()|;
      SectorAt(fs.g, chain, k);
      var clst: nat;
      if fptr == 0 {
        LocateUnique(fs.g.csize, 0, 0, 0);
        clst := sclust;
      } else {
        ByteBefore(fptr);
        PreviousCluster(fs.g.csize, k);
        clst := NextLink(clust, i - 1);
      }
      clust := clst;
    }

    /** Whole sectors straight from the device, with the dirty one laid over them. */
    method ReadDirect(s: nat, csect: nat, n: nat) returns (data: seq<byte>)
      requires Core() && Sized() && InCluster() && fptr % SECTOR_SIZE == 0
      requires csect == CluOfs(fs.g.csize, fptr / SECTOR_SIZE) && s == fs.g.FirstSector(clust) + csect
      requires n >= SECTOR_SIZE && fptr + n <= objsize
      modifies `fptr
      ensures Core() && Sized() && OnCluster() && OnSector()
      ensures 0 < |data| <= n && fptr == old(fptr) + |data| && data == contents[old(fptr)..fptr]
    {
      hide Volume.Valid, Volume.Vol, Fat, FileState, Sectors, CluIdx, CluOfs, Consecutive, ReadRun;
      ghost var k := fptr / SECTOR_SIZE;
      Locate(fs.g.csize, k);
      var cc := n / SECTOR_SIZE;
      if csect + cc > fs.g.csize {
        cc := fs.g.csize - csect;
      }
      RunInCluster(fs.g, chain, k, cc);
      WholeSectors(fptr, cc);
      SameClusterFurther(fs.g.csize, k, cc - 1);
      data := FetchRun(s, cc, k);
      fptr := fptr + SECTOR_SIZE * cc;
    }

    method FetchRun(s: nat, cc: nat, ghost k: nat) returns (data: seq<byte>)
      requires Core() && Consecutive(Secs(), k, s, cc) && fs.g.database <= s && s + cc <= fs.g.devSize
      requires (k + cc) * SECTOR_SIZE <= |contents|
      ensures data == contents[k * SECTOR_SIZE..(k + cc) * SECTOR_SIZE]
    {
      hide Volume.Valid, Volume.Vol, Fat, Sectors, ReadRun, FileRep, Over, Holds, Consecutive;
      StateSectors(fs.g, fs.Vol(), fs.winsect, chain, contents, sect, dirty, buf[..]);
      StateBuffer(fs.g, fs.Vol(), fs.winsect, chain, contents, sect, dirty, buf[..]);
      if s <= fs.winsect < s + cc {
        RunOfFile(Secs(), k, s, cc, fs.winsect);
      }
      DirectReadRep(View(), Secs(), contents, k, s, cc);
      data := DiskRead(fs, s, cc);
      Sub32Range(sect, s, cc);
      OverlayDirty(fs.Vol(), s, cc, sect, dirty, buf[..]);
      if dirty && Sub32(sect, s) < cc {
        data := Patch(data, (sect - s) * SECTOR_SIZE, buf[..]);
      }
    }

    /** The buffer holds the bytes of the file in its sector. */
    lemma BufferHolds(k: nat, o: nat, n: nat)
      requires Core() && k < |Secs()| && sect == Secs()[k]
      requires o + n <= SECTOR_SIZE && k * SECTOR_SIZE + o + n <= |contents|
      ensures buf[..][o..o + n] == contents[k * SECTOR_SIZE + o..k * SECTOR_SIZE + o + n]
    {
      hide Volume.Valid, Volume.Vol, Fat, Sectors, FileRep, Holds;
      StateSectors(fs.g, fs.Vol(), fs.winsect, chain, contents, sect, dirty, buf[..]);
      assert sect in Secs();
      PartialReadRep(View(), Secs(), contents, k, o, n);
    }

    /** Bytes out of the buffer, up to the end of its sector. */
    method ReadPart(n: nat) returns (data: seq<byte>)
      requires Core() && Sized() && InCluster()
      requires fptr / SECTOR_SIZE < |Secs()| && sect == Secs()[fptr / SECTOR_SIZE]
      requires 0 < n && fptr + n <= objsize
      modifies `fptr
      ensures Core() && Sized() && OnCluster() && OnSector()
      ensures 0 < |data| <= n && fptr == old(fptr) + |data| && data == contents[old(fptr)..fptr]
    {
      hide Volume.Valid, Volume.Vol, Fat, Sectors, CluIdx, CluOfs, FileState;
      ghost var k, o := fptr / SECTOR_SIZE, fptr % SECTOR_SIZE;
      var rcnt := SECTOR_SIZE - fptr % SECTOR_SIZE;
      if rcnt > n {
        rcnt := n;
      }
      WithinSector(fptr, rcnt);
      BufferHolds(k, o, rcnt);
      data := buf[..][fptr % SECTOR_SIZE..fptr % SECTOR_SIZE + rcnt];
      fptr := fptr + rcnt;
    }

    /** At a sector boundary: follow the chain if a cluster starts here. */
    method EnterForRead()
      requires Core() && Sized() && OnCluster() && fptr < objsize && fptr % SECTOR_SIZE == 0
      modifies fs`disk, fs`wflag, fs`winsect, fs.win, `clust
      ensures Core() && Sized() && InCluster() && fs.Vol() == old(fs.Vol())
      ensures fs.winsect == old(fs.winsect) || fs.g.InFat1(fs.winsect)
      ensures Tidy()
    {
      hide Volume.Valid, Volume.Vol, Fat, FileState, Sectors, CluIdx, CluOfs;
      OffsetIs(fs.g.csize, fptr / SECTOR_SIZE);
      if fptr / SECTOR_SIZE % fs.g.csize == 0 {
        FollowForRead();
      } else {
        SameCluster(fs.g.csize, fptr / SECTOR_SIZE);
        ByteBefore(fptr);
      }
    }

    /** The buffer gets the sector of the cursor, after a dirty one is written back. */
    method BringSector(s: nat)
      requires Core() && s in Secs()
      modifies fs`disk, buf, `dirty, `sect
      ensures Core() && sect == s && OnlyThisFile(old(fs.Vol())) && fs.FatSeq() == old(fs.FatSeq())
      ensures Home()
      ensures sect in Secs()
      ensures dirty ==> old(dirty)
    {
      hide Volume.Valid, Volume.Vol, Fat, FileState, Sectors, OnlyChain, View;
      OnlyChainRefl(fs.g, fs.Vol(), chain);
      if sect != s {
        if dirty {
          FlushBuf();
        }
        LoadBuf(s);
      }
    }

    /** One round of the loop of f_read. */
    method ReadStep(n: nat) returns (data: seq<byte>)
      requires Valid() && err == Ok && 0 < n && fptr + n <= objsize
      modifies fs`disk, fs`wflag, fs`winsect, fs.win, buf, `clust, `dirty, `sect, `fptr
      ensures Valid() && OnlyThisFile(old(fs.Vol())) && fs.FatSeq() == old(fs.FatSeq())
      ensures old(Home()) ==> Home()
      ensures 0 < |data| <= n && fptr == old(fptr) + |data| && data == contents[old(fptr)..fptr]
      ensures fs.winsect == old(fs.winsect) || fs.g.InFat1(fs.winsect)
      ensures sect == old(sect) || sect in Secs()
      ensures dirty ==> old(dirty)
      ensures Tidy()
    {
      hide Volume.Valid, Volume.Vol, Fat, FileState, Sectors, CluIdx, CluOfs, OnlyChain;
      OnlyChainRefl(fs.g, fs.Vol(), chain);
      SectorsCover();
      if fptr % SECTOR_SIZE == 0 {
        EnterForRead();
        var s := SectorHere();
        if n / SECTOR_SIZE > 0 {
          OffsetIs(fs.g.csize, fptr / SECTOR_SIZE);
          data := ReadDirect(s, fptr / SECTOR_SIZE % fs.g.csize, n);
          return;
        }
        BringSector(s);
      } else {
        ByteBefore(fptr);
      }
      data := ReadPart(n);
    }

    /** f_read: exactly the bytes between the cursor and the end that were asked for. */
    method Read(btr: nat) returns (res: Result, data: seq<byte>)
      requires Valid()
      modifies fs`disk, fs`wflag, fs`winsect, fs.win, buf, `clust, `dirty, `sect, `fptr
      ensures Valid() && OnlyThisFile(old(fs.Vol())) && fs.FatSeq() == old(fs.FatSeq())
      ensures old(Home()) ==> Home()
      ensures res == if !isOpen then InvalidObject else if err != Ok then err else if !canRead then Denied else Ok
      ensures res != Ok ==> data == [] && fptr == old(fptr)
      ensures res == Ok ==> old(fptr) <= fptr == (if btr > objsize - old(fptr) then objsize else old(fptr) + btr)
      ensures res == Ok ==> data == contents[old(fptr)..fptr]
      ensures fs.winsect == old(fs.winsect) || fs.g.InFat1(fs.winsect)
      ensures sect == old(sect) || sect in Secs()
      ensures Quiet()
    {
      hide Volume.Valid, Volume.Vol, Fat, Core, OnCluster, OnSector, OnlyChain, OfChain;
      ghost var vol0, fptr0 := fs.Vol(), fptr;
      data := [];
      OnlyChainRefl(fs.g, vol0, chain);
      if !isOpen {
        return InvalidObject, [];
      }
      if err != Ok {
        return err, [];
      }
      if !canRead {
        return Denied, [];
      }
      var n: nat := btr;
      if n > objsize - fptr {
        n := objsize - fptr;
      }
      while n > 0
        invariant fs.winsect == old(fs.winsect) || fs.g.InFat1(fs.winsect)
        invariant Valid() && OnlyThisFile(vol0) && fs.FatSeq() == old(fs.FatSeq())
        invariant (dirty ==> old(dirty)) && Tidy()
        invariant old(Home()) ==> Home()
        invariant sect == old(sect) || sect in Secs()
        invariant fptr0 <= fptr && fptr + n == (if btr > objsize - fptr0 then objsize else fptr0 + btr)
        invariant data == contents[fptr0..fptr]
      {
        ghost var vol1, fptr1 := fs.Vol(), fptr;
        var piece := ReadStep(n);
        assert contents[fptr0..fptr1] + contents[fptr1..fptr] == contents[fptr0..fptr];
        OnlyChainTrans(fs.g, vol0, vol1, chain, fs.Vol(), chain);
        data, n := data + piece, n - |piece|;
      }
      res := Ok;
    }

    // ---- seeking

    /** The walk of f_lseek stands in cluster number j, at its start, with ofs bytes to go. */
    ghost predicate Walking(j: nat, ofs: nat, target: nat)
      reads `chain, `fptr, `clust
    {
      && fs.g.csize > 0 && j < |chain| && clust == chain[j] && fptr == Bound(fs.g.csize, j) && 0 < ofs
      && fptr + ofs == target
    }

    /** The first cluster of the chain, a new one if there is none. */
    method HeadCluster() returns (clst: nat)
      requires Core() && Recorded()
      modifies fs`disk, fs`wflag, fs`winsect, fs`freeClst, fs`lastClst, fs`fsiDirty, fs.win, `sclust, `clust, `chain
      ensures Core() && Recorded() && SameOutsideFats(fs.g, old(fs.Vol()), fs.Vol())
      ensures Extended(old(fs.FatSeq()), old(chain), fs.FatSeq(), chain)
      ensures clst == 0 ==> NoSpace() && chain == []
      ensures clst == 1 ==> Damaged(fs.FatSeq()) && chain == old(chain)
      ensures clst >= 2 ==> chain != [] && clst == clust == chain[0]
      ensures old(Room(1)) == Now(if clst == 0 then NoRoom else if clst == 1 then BadEntry else Reached)
      ensures old(CountRight(fs.freeClst, fs.FatSeq())) ==> CountRight(fs.freeClst, fs.FatSeq())
      ensures fs.winsect == old(fs.winsect) || fs.g.InFat1(fs.winsect)
      ensures Tidy()
    {
      hide Volume.Valid, Volume.Vol, Fat, FileState, IsChain, Full, CountRight, Sectors, GrowTo, Damaged;
      CoreChain();
      ExtendedRefl(fs.FatSeq(), chain);
      RoomNone(1);
      clst := sclust;
      if clst == 0 {
        ChainStart(fs.FatSeq(), chain);
        clst := Stretch(0, 0);
        if clst == 1 {
          return;
        }
        sclust := clst;
      } else {
        ChainEntry(fs.FatSeq(), chain, 0);
      }
      clust := clst;
    }

    /** Start in the current cluster when the target is not before it, else at the first one (new, if there is none). */
    method SeekStart(target: nat, ifptr: nat) returns (clst: nat, ofs: nat, ghost j: nat)
      requires Core() && Sized() && OnCluster() && err == Ok && ifptr == fptr
      requires 0 < target < 0x1_0000_0000 && (target > objsize ==> canWrite)
      modifies fs`disk, fs`wflag, fs`winsect, fs`freeClst, fs`lastClst, fs`fsiDirty, fs.win, `sclust, `clust, `chain
      modifies `fptr
      ensures Core() && Recorded() && SameOutsideFats(fs.g, old(fs.Vol()), fs.Vol())
      ensures Extended(old(fs.FatSeq()), old(chain), fs.FatSeq(), chain)
      ensures clst == 0 ==> NoSpace() && chain == [] && fptr == 0
      ensures clst == 1 ==> Damaged(fs.FatSeq()) && fptr == 0
      ensures clst >= 2 ==> clst == clust && Walking(j, ofs, target)
      ensures if clst >= 2 then old(Room(ClustersFor(fs.g.csize, target))) == Room(ClustersFor(fs.g.csize, target))
              else old(Room(ClustersFor(fs.g.csize, target))) == Now(if clst == 0 then NoRoom else BadEntry)
      ensures old(CountRight(fs.freeClst, fs.FatSeq())) ==> CountRight(fs.freeClst, fs.FatSeq())
      ensures fs.winsect == old(fs.winsect) || fs.g.InFat1(fs.winsect)
      ensures Tidy()
    {
      hide Volume.Valid, Volume.Vol, Fat, FileState, IsChain, Full, CountRight, CluIdx, CluOfs, Bound, Sectors, GrowTo,
           Damaged, Extended;
      hide NoSpace;
      var bcs := fs.g.csize * SECTOR_SIZE;
      CoreChain();
      LastInTable();
      ExtendedRefl(fs.FatSeq(), chain);
      if ifptr > 0 {
        ByteCluster(fs.g.csize, target - 1);
        ByteCluster(fs.g.csize, ifptr - 1);
      }
      fptr := 0;
      j := 0;
      BoundNext(fs.g.csize, 0);
      if ifptr > 0 && (target - 1) / bcs >= (ifptr - 1) / bcs {
        j := CluIdx(fs.g.csize, (ifptr - 1) / SECTOR_SIZE);
        StartBelow(fs.g.csize, target, ifptr);
        fptr := ifptr - 1 - (ifptr - 1) % bcs;
        ofs := target - fptr;
        clst := clust;
        ChainEntry(fs.FatSeq(), chain, j);
      } else {
        GrowSplit(EndMark(fs.g.fsType), fs.FatSeq(), chain, fs.lastClst, fs.freeClst, 1,
                  ClustersFor(fs.g.csize, target));
        ofs := target;
        clst := HeadCluster();
      }
    }

    /** One round of the cluster following loop: one cluster on, stretching the chain in write mode. */
    method WalkStep(ofs: nat, ghost j: nat, ghost target: nat) returns (clst: nat)
      requires Core() && Recorded() && Walking(j, ofs, target) && ofs > fs.g.csize * SECTOR_SIZE
      requires target < 0x1_0000_0000 && (target > objsize ==> canWrite)
      modifies fs`disk, fs`wflag, fs`winsect, fs`freeClst, fs`lastClst, fs`fsiDirty, fs.win, `clust, `chain, `fptr
      ensures Core() && Recorded() && SameOutsideFats(fs.g, old(fs.Vol()), fs.Vol())
      ensures Extended(old(fs.FatSeq()), old(chain), fs.FatSeq(), chain)
      ensures clst == 0 ==> NoSpace() && |chain| == j + 1 && clust == chain[j] && fptr == Bound(fs.g.csize, j + 1)
      ensures clst == 1 ==> Damaged(fs.FatSeq())
      ensures clst >= 2 ==> Walking(j + 1, ofs - fs.g.csize * SECTOR_SIZE, target)
      ensures old(CountRight(fs.freeClst, fs.FatSeq())) ==> CountRight(fs.freeClst, fs.FatSeq())
      ensures fs.winsect == old(fs.winsect) || fs.g.InFat1(fs.winsect)
      ensures if clst >= 2 then old(Room(ClustersFor(fs.g.csize, target))) == Room(ClustersFor(fs.g.csize, target))
              else old(Room(ClustersFor(fs.g.csize, target))) == Now(if clst == 0 then NoRoom else BadEntry)
      ensures Tidy()
    {
      hide Volume.Valid, Volume.Vol, Fat, FileState, IsChain, Full, CountRight, Bound, Sectors, GrowTo, Damaged;
      CoreChain();
      ExtendedRefl(fs.FatSeq(), chain);
      BoundNext(fs.g.csize, j);
      LastInTable();
      ClustersPast(fs.g.csize, target, j + 1);
      GrowSplit(EndMark(fs.g.fsType), fs.FatSeq(), chain, fs.lastClst, fs.freeClst, j + 2,
                ClustersFor(fs.g.csize, target));
      fptr := fptr + fs.g.csize * SECTOR_SIZE;
      if canWrite {
        clst := Stretch(clust, j);
      } else {
        SectorsCover();
        BoundBelow(fs.g, chain, fptr, j + 1);
        clst := NextLink(clust, j);
      }
      if clst >= 2 {
        clust := clst;
      }
    }

    /** The cluster following loop of f_lseek.  On a full disk the walk ends at the end of the last cluster. */
    method SeekWalk(first: nat, ghost j0: nat, ghost target: nat) returns (res: Result, ofs: nat, ghost j: nat)
      requires Core() && Recorded() && Walking(j0, first, target)
      requires target < 0x1_0000_0000 && (target > objsize ==> canWrite)
      modifies fs`disk, fs`wflag, fs`winsect, fs`freeClst, fs`lastClst, fs`fsiDirty, fs.win, `clust, `chain, `fptr
      ensures Core() && Recorded() && SameOutsideFats(fs.g, old(fs.Vol()), fs.Vol())
      ensures Extended(old(fs.FatSeq()), old(chain), fs.FatSeq(), chain)
      ensures res != Ok ==> res == IntErr && Damaged(fs.FatSeq())
      ensures res == Ok ==> j < |chain| && clust == chain[j]
      ensures res == Ok && ofs > 0 ==> Walking(j, ofs, target) && ofs <= fs.g.csize * SECTOR_SIZE
      ensures res == Ok && ofs == 0 ==> NoSpace() && |chain| == j + 1 && fptr == Bound(fs.g.csize, j + 1) < target
      ensures old(CountRight(fs.freeClst, fs.FatSeq())) ==> CountRight(fs.freeClst, fs.FatSeq())
      ensures fs.winsect == old(fs.winsect) || fs.g.InFat1(fs.winsect)
      ensures old(Room(ClustersFor(fs.g.csize, target))) ==
        Now(if res != Ok then BadEntry else if ofs > 0 then Reached else NoRoom)
      ensures Tidy()
    {
      hide Volume.Valid, Volume.Vol, Fat, FileState, Holds, Full, CountRight, Bound, Extended, Core, GrowTo,
           ClustersFor, Damaged;
      ghost var fat0, chain0, vol0 := fs.FatSeq(), chain, fs.Vol();
      ofs, j := first, j0;
      CoreChain();
      ExtendedRefl(fat0, chain0);
      while ofs > fs.g.csize * SECTOR_SIZE
        invariant fs.winsect == old(fs.winsect) || fs.g.InFat1(fs.winsect)
        invariant Core() && Recorded() && SameOutsideFats(fs.g, vol0, fs.Vol())
        invariant Extended(fat0, chain0, fs.FatSeq(), chain)
        invariant Walking(j, ofs, target) && Tidy()
        invariant old(Room(ClustersFor(fs.g.csize, target))) == Room(ClustersFor(fs.g.csize, target))
        invariant old(CountRight(fs.freeClst, fs.FatSeq())) ==> CountRight(fs.freeClst, fs.FatSeq())
        decreases ofs
      {
        ghost var fat1, chain1 := fs.FatSeq(), chain;
        BoundNext(fs.g.csize, j);
        var clst := WalkStep(ofs, j, target);
        ExtendedTrans(fat0, chain0, fat1, chain1, fs.FatSeq(), chain);
        if clst == 0 {
          return Ok, 0, j;
        }
        if clst == 1 {
          return IntErr, ofs, j;
        }
        ofs, j := ofs - fs.g.csize * SECTOR_SIZE, j + 1;
      }
      BoundNext(fs.g.csize, j);
      ClustersOf(fs.g.csize, target, j);
      RoomNone(j + 1);
      res := Ok;
    }

    /** The size follows the cursor when a seek extends the file; the new bytes are what the sectors hold. */
    method GrowToCursor()
      requires Core() && Recorded() && fptr <= |Secs()| * SECTOR_SIZE
      modifies `objsize, `contents, `modified
      ensures Core() && Sized() && old(contents) <= contents
      ensures |contents| == if fptr > old(objsize) then fptr else old(objsize)
      ensures modified == (old(modified) || fptr > old(objsize))
    {
      hide Volume.Valid, Volume.Vol, Fat, Sectors, FileRep, Holds, Over;
      if fptr > objsize {
        StateSectors(fs.g, fs.Vol(), fs.winsect, chain, contents, sect, dirty, buf[..]);
        RepGrown(View(), Secs(), contents, fptr);
        contents := BytesOf(View(), Secs(), fptr);
        objsize := fptr;
        modified := true;
      }
    }

    /** The position in the target's cluster, and its sector if it is inside one. */
    method SeekFinish(ofs: nat, ghost j: nat, ghost target: nat) returns (nsect: nat)
      requires Core() && Recorded() && Walking(j, ofs, target) && ofs <= fs.g.csize * SECTOR_SIZE
      requires target < 0x1_0000_0000
      modifies `fptr
      ensures fptr == target && OnCluster() && fptr <= |Secs()| * SECTOR_SIZE
      ensures fptr % SECTOR_SIZE != 0 ==> fptr / SECTOR_SIZE < |Secs()| && nsect == Secs()[fptr / SECTOR_SIZE]
    {
      hide Volume.Valid, Volume.Vol, Fat, FileState, Sectors, CluIdx, CluOfs, Bound;
      BoundNext(fs.g.csize, j);
      ClusterOfByte(fs.g.csize, target - 1, j);
      RoomInCluster(fs.g, chain, j, target);
      fptr := fptr + ofs;
      nsect := 0;
      if ofs % SECTOR_SIZE != 0 {
        PlaceInCluster(fs.g, chain, j, target);
        nsect := Clst2Sect(fs.g, clust);
        nsect := nsect + ofs / SECTOR_SIZE;
      }
    }

    /** The part of f_lseek that moves the cursor: gives the sector to load, 0 for none. */
    method SeekTo(target: nat) returns (res: Result, nsect: nat)
      requires Valid() && err == Ok && target < 0x1_0000_0000 && (target > objsize ==> canWrite)
      modifies fs`disk, fs`wflag, fs`winsect, fs`freeClst, fs`lastClst, fs`fsiDirty, fs.win, `sclust, `clust, `chain
      modifies `fptr
      ensures Core() && Recorded() && SameOutsideFats(fs.g, old(fs.Vol()), fs.Vol())
      ensures Extended(old(fs.FatSeq()), old(chain), fs.FatSeq(), chain)
      ensures res != Ok ==> res == IntErr && Damaged(fs.FatSeq())
      ensures res == Ok ==> OnCluster() && fptr <= |Secs()| * SECTOR_SIZE
      ensures res == Ok ==> fptr == target || (fptr < target && NoSpace() && fptr == Bound(fs.g.csize, |chain|))
      ensures res == Ok && fptr % SECTOR_SIZE != 0 ==>
        fptr / SECTOR_SIZE < |Secs()| && nsect == Secs()[fptr / SECTOR_SIZE]
      ensures old(CountRight(fs.freeClst, fs.FatSeq())) ==> CountRight(fs.freeClst, fs.FatSeq())
      ensures fs.winsect == old(fs.winsect) || fs.g.InFat1(fs.winsect)
      ensures fs.g.csize > 0 && old(Room(ClustersFor(fs.g.csize, target))) ==
        Now(if res != Ok then BadEntry else if fptr == target then Reached else NoRoom)
      ensures Tidy()
    {
      hide Volume.Valid, Volume.Vol, Fat, FileState, Full, CountRight, Bound, Extended, Holds, Sectors, CluIdx, GrowTo,
           Damaged, ClustersFor, Room, NoSpace, InArea, Geo.Valid;
      CoreChain();
      ghost var fat0, chain0 := fs.FatSeq(), chain;
      ExtendedRefl(fat0, chain0);
      BoundNext(fs.g.csize, 0);
      nsect, res := 0, Ok;
      if target == 0 {
        NoClusters(fs.g.csize);
        RoomNone(0);
        fptr := 0;
        return;
      }
      var clst, ofs, j := SeekStart(target, fptr);
      if clst == 1 {
        return IntErr, 0;
      }
      if clst == 0 {
        return;
      }
      ghost var fat1, chain1 := fs.FatSeq(), chain;
      res, ofs, j := SeekWalk(ofs, j, target);
      ExtendedTrans(fat0, chain0, fat1, chain1, fs.FatSeq(), chain);
      if res != Ok {
        return;
      }
      if ofs > 0 {
        nsect := SeekFinish(ofs, j, target);
      } else {
        EndOfChain(fs.g, chain, j);
        BoundNext(fs.g.csize, j);
        ClusterOfByte(fs.g.csize, fptr - 1, j);
      }
    }

    /** The cursor, the size and the buffer follow a seek of an open file. */
    method MoveCursor(target: nat) returns (res: Result)
      requires Valid() && err == Ok && target < 0x1_0000_0000 && (target > objsize ==> canWrite)
      modifies fs`disk, fs`wflag, fs`winsect, fs`freeClst, fs`lastClst, fs`fsiDirty, fs.win
      modifies buf, `sclust, `clust, `chain, `dirty, `sect, `fptr, `objsize, `contents, `modified
      ensures Core() && Recorded() && OnlyThisFile(old(fs.Vol()))
      ensures old(Home()) ==> Home()
      ensures Extended(old(fs.FatSeq()), old(chain), fs.FatSeq(), chain)
      ensures res != Ok ==> res == IntErr && Damaged(fs.FatSeq()) && contents == old(contents)
      ensures res == Ok ==> Sized() && OnCluster() && OnSector()
      ensures res == Ok ==>
        && (fptr == target || (old(objsize) <= fptr < target && NoSpace() && fptr == Bound(fs.g.csize, |chain|)))
        && old(contents) <= contents && |contents| == (if fptr > old(objsize) then fptr else old(objsize))
        && (modified <==> old(modified) || fptr > old(objsize))
      ensures old(CountRight(fs.freeClst, fs.FatSeq())) ==> CountRight(fs.freeClst, fs.FatSeq())
      ensures fs.winsect == old(fs.winsect) || fs.g.InFat1(fs.winsect)
      ensures fs.g.csize > 0 && old(Room(ClustersFor(fs.g.csize, target))) ==
        Now(if res != Ok then BadEntry else if fptr == target then Reached else NoRoom)
      ensures sect == old(sect) || sect in Secs()
      ensures res == Ok && fptr % SECTOR_SIZE == 0 ==> sect == old(sect)
      ensures dirty ==> old(dirty)
      ensures old(modified) ==> modified
      ensures Tidy()
      ensures res != Ok ==> modified == old(modified)
    {
      hide Volume.Valid, Volume.Vol, Fat, FileState, Full, CountRight, Bound, Extended, Holds, Sectors, CluIdx,
           OnlyChain, OfChain, Geo.Valid, GrowTo, Damaged, ClustersFor;
      ghost var vol0, chain0 := fs.Vol(), chain;
      SectorsCover();
      var nsect;
      res, nsect := SeekTo(target);
      ExtendedPrefix(old(fs.FatSeq()), chain0, fs.FatSeq(), chain);
      OfLongerChain(fs.g, chain0, chain, sect);
      ghost var sect0 := sect;
      TableOnly(fs.g, vol0, fs.Vol(), chain);
      if res != Ok {
        return;
      }
      SectorsCover();
      BoundOfChain(fs.g, chain);
      GrowToCursor();
      ghost var vol1 := fs.Vol();
      SettleBuffer(nsect);
      OnlyChainTrans(fs.g, vol0, vol1, chain, fs.Vol(), chain);
    }

    /**
      f_lseek: the cursor is at the target; bytes up to the old end are kept and
      a file seeked past its end grows.  On a full disk the cursor stops at the
      end of the last cluster.
      */
    method Seek(ofs: nat) returns (res: Result)
      requires Valid() && ofs < 0x1_0000_0000
      modifies fs`disk, fs`wflag, fs`winsect, fs`freeClst, fs`lastClst, fs`fsiDirty, fs.win
      modifies buf, `sclust, `clust, `chain, `dirty, `err, `sect, `fptr, `objsize, `contents, `modified
      ensures Valid() && OnlyThisFile(old(fs.Vol()))
      ensures old(Home()) ==> Home()
      ensures Extended(old(fs.FatSeq()), old(chain), fs.FatSeq(), chain)
      ensures !isOpen || old(err) != Ok ==>
        && res == (if !isOpen then InvalidObject else err) && err == old(err)
        && contents == old(contents) && fptr == old(fptr) && fs.Vol() == old(fs.Vol()) && chain == old(chain)
        && modified == old(modified)
      ensures isOpen && old(err) == Ok && res != Ok ==>
        res == IntErr == err && Damaged(fs.FatSeq()) && contents == old(contents)
      ensures isOpen && old(err) == Ok && res == Ok ==>
        var target := if ofs > old(objsize) && !canWrite then old(objsize) else ofs;
        && (fptr == target || (old(objsize) <= fptr < target && NoSpace() && fptr == Bound(fs.g.csize, |chain|)))
        && old(contents) <= contents && |contents| == (if fptr > old(objsize) then fptr else old(objsize))
        && (modified <==> old(modified) || fptr > old(objsize))
      ensures old(CountRight(fs.freeClst, fs.FatSeq())) ==> CountRight(fs.freeClst, fs.FatSeq())
      ensures fs.winsect == old(fs.winsect) || fs.g.InFat1(fs.winsect)
      ensures isOpen && old(err) == Ok ==>
        var target := if ofs > old(objsize) && !canWrite then old(objsize) else ofs;
        && old(Room(ClustersFor(fs.g.csize, if ofs > objsize && !canWrite then objsize else ofs))) ==
             Now(if res != Ok then BadEntry else if fptr == target then Reached else NoRoom)
      ensures sect == old(sect) || sect in Secs()
      ensures res == Ok && isOpen && old(err) == Ok && fptr % SECTOR_SIZE == 0 ==> sect == old(sect)
      ensures Quiet()
      ensures res == Ok ==> err == old(err)
      ensures isOpen && old(err) == Ok && res != Ok ==> modified == old(modified)
    {
      hide Volume.Valid, Volume.Vol, Fat, FileState, Full, CountRight, Bound, Extended, Holds, Sectors, CluIdx,
           OnlyChain, NoSpace, OfChain, GrowTo, Damaged, ClustersFor;
      CoreChain();
      OnlyChainRefl(fs.g, fs.Vol(), chain);
      ExtendedRefl(fs.FatSeq(), chain);
      if !isOpen {
        return InvalidObject;
      }
      if err != Ok {
        return err;
      }
      var target := ofs;
      if target > objsize && !canWrite {
        target := objsize;
      }
      ghost var ch, size := chain, objsize;
      SizeBound();
      ClustersFit(fs.g.csize, target, |chain|);
      RoomNone(ClustersFor(fs.g.csize, target));
      res := MoveCursor(target);
      ExtendedPrefix(old(fs.FatSeq()), ch, fs.FatSeq(), chain);
      SameStart();
      if res != Ok {
        err := res;
      } else {
        NotGrown(ch, size);
      }
    }

    /** The file ends inside its clusters. */
    lemma SizeBound()
      requires Core()
      ensures |contents| <= Bound(fs.g.csize, |chain|)
    {
      hide Volume.Valid, Volume.Vol, Fat, FileState, Sectors, Bound;
      SectorsCover();
      BoundOfChain(fs.g, chain);
    }

    /** A chain that ends inside the old size is not longer than it was. */
    lemma NotGrown(ch: seq<nat>, size: nat)
      requires fs.g.csize > 0 && ch <= chain && size <= Bound(fs.g.csize, |ch|)
      ensures Bound(fs.g.csize, |chain|) <= size ==> chain == ch
    {
      BoundMono(fs.g.csize, |ch|, |chain|);
    }

    /** Inside a sector, the buffer gets that sector. */
    method SettleBuffer(nsect: nat)
      requires Core()
      requires fptr % SECTOR_SIZE != 0 ==> fptr / SECTOR_SIZE < |Secs()| && nsect == Secs()[fptr / SECTOR_SIZE]
      modifies fs`disk, buf, `dirty, `sect
      ensures Core() && OnSector() && OnlyThisFile(old(fs.Vol())) && fs.FatSeq() == old(fs.FatSeq())
      ensures old(Home()) ==> Home()
      ensures sect == old(sect) || sect in Secs()
      ensures fptr % SECTOR_SIZE == 0 ==> sect == old(sect)
      ensures dirty ==> old(dirty)
    {
      hide Volume.Valid, Volume.Vol, Fat, FileState, Sectors, OnlyChain;
      OnlyChainRefl(fs.g, fs.Vol(), chain);
      if fptr % SECTOR_SIZE != 0 && nsect != sect {
        BringSector(nsect);
      }
    }

    /** The cluster of the last byte, along the table. */
    method LastCluster() returns (clst: nat, ofs: nat, ghost j: nat)
      requires Core() && Sized() && objsize > 0
      modifies fs`disk, fs`wflag, fs`winsect, fs.win
      ensures Core() && fs.Vol() == old(fs.Vol())
      ensures fs.g.csize > 0 && j < |chain| && clst == chain[j] && fs.g.InRange(clst)
      ensures 0 < ofs <= fs.g.csize * SECTOR_SIZE && objsize == Bound(fs.g.csize, j) + ofs
      ensures fs.winsect == old(fs.winsect) || fs.g.InFat1(fs.winsect)
      ensures fs.wflag ==> old(fs.wflag)
    {
      hide Volume.Valid, Volume.Vol, Fat, FileState, Sectors, Bound, IsChain;
      SectorsCover();
      CoreChain();
      BoundNext(fs.g.csize, 0);
      clst, ofs, j := sclust, objsize, 0;
      ChainEntry(fs.FatSeq(), chain, 0);
      while ofs > fs.g.csize * SECTOR_SIZE
        invariant fs.winsect == old(fs.winsect) || fs.g.InFat1(fs.winsect)
        invariant Core() && fs.Vol() == old(fs.Vol()) && |contents| <= |Secs()| * SECTOR_SIZE
        invariant fs.wflag ==> old(fs.wflag)
        invariant j < |chain| && clst == chain[j] && fs.g.InRange(clst)
        invariant 0 < ofs && objsize == Bound(fs.g.csize, j) + ofs
        decreases ofs
      {
        BoundNext(fs.g.csize, j);
        BoundBelow(fs.g, chain, Bound(fs.g.csize, j + 1), j + 1);
        clst := NextLink(clst, j);
        ofs, j := ofs - fs.g.csize * SECTOR_SIZE, j + 1;
      }
    }

    /** f_open for appending: the cursor goes to the end of the file. */
    method SeekEnd()
      requires Valid() && err == Ok && !dirty && objsize > 0
      modifies fs`disk, fs`wflag, fs`winsect, fs.win, buf, `fptr, `clust, `sect
      ensures Valid() && fs.Vol() == old(fs.Vol()) && fptr == objsize
      ensures old(Home()) ==> Home()
      ensures fs.winsect == old(fs.winsect) || fs.g.InFat1(fs.winsect)
      ensures fs.wflag ==> old(fs.wflag)
    {
      hide Volume.Valid, Volume.Vol, Fat, FileState, Sectors, CluIdx, CluOfs, Bound;
      var clst, ofs, j := LastCluster();
      fptr := objsize;
      clust := clst;
      BoundNext(fs.g.csize, j);
      ClusterOfByte(fs.g.csize, fptr - 1, j);
      if ofs % SECTOR_SIZE != 0 {
        PlaceInCluster(fs.g, chain, j, fptr);
        var sc := Clst2Sect(fs.g, clst);
        LoadBuf(sc + ofs / SECTOR_SIZE);
      } else {
        BoundWhole(fs.g.csize, j, ofs);
      }
    }

    // ---- truncating

    /** Clusters that bytes up to the cursor need. */
    ghost function ClustersToCursor(): nat
      requires fs.g.csize > 0
      reads `fptr
    {
      ClustersFor(fs.g.csize, fptr)
    }

    /** f_truncate would cut something off. */
    predicate Cuts()
      reads `fptr, `objsize, `err
    {
      err == Ok && canWrite && fptr < objsize
    }

    /** The buffered sector lies in front of the cut f_truncate would make at the cursor. */
    ghost predicate StaysHome()
      requires InArea(fs.g, chain)
      reads `chain, `sect, `fptr, `objsize, `err
    {
      Cuts() ==>
        && fs.g.csize > 0
        && forall k :: 0 <= k < |Secs()| && sect == Secs()[k] ==> k < RunLength(fs.g.csize, ClustersToCursor())
    }

    /** Inside a sector, the buffer shows that sector. */
    lemma ShowsSector()
      requires Valid() && err == Ok && fptr % SECTOR_SIZE != 0
      ensures fptr / SECTOR_SIZE < |Secs()| && sect == Secs()[fptr / SECTOR_SIZE] && sect != 0
    {
      hide Volume.Valid, Volume.Vol, Fat, FileState, Sectors, CluIdx;
      SectorsApartOnce();
    }

    /** It does inside a sector, or when nothing is cut off. */
    lemma InsideStays()
      requires Valid() && (fptr % SECTOR_SIZE != 0 || sect == 0 || !Cuts())
      ensures StaysHome()
    {
      hide Volume.Valid, Volume.Vol, Fat, FileState, Sectors, CluIdx, RunLength;
      if Cuts() {
        SectorsApartOnce();
        CursorBound();
      }
    }

    /** Free the clusters of the chain from number m on; the file object still shows them. */
    method FreeTail(clst: nat, pclst: nat, ghost m: nat) returns (res: Result)
      requires Core() && m < |chain| && clst == chain[m] && pclst == (if m == 0 then 0 else chain[m - 1])
      modifies fs`disk, fs`wflag, fs`winsect, fs`freeClst, fs`fsiDirty, fs.win
      ensures fs.Valid() && SameOutsideFats(fs.g, old(fs.Vol()), fs.Vol()) && fs.g.InFat1(fs.winsect)
      ensures res == Ok && Cut(old(fs.FatSeq()), chain, m, fs.FatSeq())
      ensures old(CountRight(fs.freeClst, fs.FatSeq())) ==> CountRight(fs.freeClst, fs.FatSeq())
    {
      hide Volume.Valid, Volume.Vol, Fat, FileState, CountRight, Cut, IsChain, SameOutsideFats, Unlink, UnlinkOk;
      ghost var fat, mark := fs.FatSeq(), EndMark(fs.g.fsType);
      CoreChain();
      ChainEntry(fat, chain, m);
      EndMarkEnds(fs.g, 0);
      if m > 0 {
        ChainEntry(fat, chain, m - 1);
        CutAt(fat, chain, m, mark);
        UnlinkChain(fat[chain[m - 1] := mark], chain[m..]);
      } else {
        CutAll(fat, chain);
        UnlinkChain(fat, chain);
      }
      res := RemoveChain(fs, clst, pclst);
    }

    /** The dirty buffer is written back even when its cluster was just freed. */
    method DropTail(ghost m: nat, ghost vol0: seq<Sector>, ghost winsect0: nat)
      requires Attached() && IsVolume(fs.g, vol0) && m <= |chain|
      requires FileState(fs.g, vol0, winsect0, chain, contents, sect, dirty, buf[..])
      requires SameOutsideFats(fs.g, vol0, fs.Vol()) && fs.g.InFat1(fs.winsect)
      requires Cut(Fat(fs.g, vol0), chain, m, fs.FatSeq())
      requires fptr <= |contents| < 0x1_0000_0000 && fptr <= Bound(fs.g.csize, m)
      modifies fs`disk, `dirty, `chain, `contents, `objsize
      ensures Core() && !dirty && chain == old(chain)[..m] && contents == old(contents)[..fptr] && objsize == fptr
      ensures fs.FatSeq() == old(fs.FatSeq())
      ensures InArea(fs.g, old(chain)) && OnlyChain(fs.g, vol0, fs.Vol(), old(chain))
    {
      hide Volume.Valid, Volume.Vol, Fat, FileState, Sectors, Bound, Cut;
      StateCut(fs.g, vol0, winsect0, chain, contents, sect, dirty, buf[..], fs.Vol(), fs.winsect, m, fptr);
      objsize := fptr;
      if dirty {
        WriteOne(fs.Vol(), sect, buf[..]);
        DiskWrite(fs, sect, buf[..]);
        dirty := false;
      }
      chain := chain[..m];
      contents := contents[..fptr];
    }

    /** Free the clusters after the cursor's. */
    method CutAfterCursor() returns (ghost m: nat, ghost vol0: seq<Sector>, ghost winsect0: nat)
      requires Core() && Sized() && OnCluster() && fptr < objsize
      modifies fs`disk, fs`wflag, fs`winsect, fs`freeClst, fs`fsiDirty, fs.win, `sclust
      ensures Attached() && vol0 == old(fs.Vol()) && m == ClustersToCursor() <= |chain|
      ensures FileState(fs.g, vol0, winsect0, chain, contents, sect, dirty, buf[..])
      ensures SameOutsideFats(fs.g, vol0, fs.Vol()) && fs.g.InFat1(fs.winsect)
      ensures Cut(Fat(fs.g, vol0), chain, m, fs.FatSeq())
      ensures sclust == (if m == 0 then 0 else old(sclust))
      ensures old(CountRight(fs.freeClst, fs.FatSeq())) ==> CountRight(fs.freeClst, fs.FatSeq())
    {
      hide Volume.Valid, Volume.Vol, Fat, FileState, CountRight, Cut, Holds, Sectors, CluIdx;
      SectorsCover();
      m, vol0 := ClustersToCursor(), fs.Vol();
      CoreChain();
      if fptr == 0 {
        winsect0 := fs.winsect;
        var _ := FreeTail(sclust, 0, 0);
        sclust := 0;
      } else {
        var ncl := NextLink(clust, m - 1);
        winsect0 := fs.winsect;
        if ncl < fs.g.nFatent {
          var _ := FreeTail(ncl, clust, m);
        } else {
          CutNothing(fs.FatSeq(), chain);
        }
      }
    }

    /** The cut itself, when the cursor is before the end. */
    method TruncateHere()
      requires Valid() && err == Ok && fptr < objsize
      modifies fs`disk, fs`wflag, fs`winsect, fs`freeClst, fs`fsiDirty, fs.win
      modifies `sclust, `chain, `dirty, `objsize, `contents, `modified
      ensures Valid() && contents == old(contents)[..fptr] && modified && !dirty
      ensures ClustersToCursor() <= |old(chain)| && chain == old(chain)[..ClustersToCursor()]
      ensures Cut(old(fs.FatSeq()), old(chain), ClustersToCursor(), fs.FatSeq())
      ensures InArea(fs.g, old(chain)) && OnlyChain(fs.g, old(fs.Vol()), fs.Vol(), old(chain))
      ensures old(CountRight(fs.freeClst, fs.FatSeq())) ==> CountRight(fs.freeClst, fs.FatSeq())
      ensures fs.winsect == old(fs.winsect) || fs.g.InFat1(fs.winsect)
      ensures forall k :: 0 <= k < |old(Secs())| && sect == old(Secs())[k] ==>
        (Home() <==> k < RunLength(fs.g.csize, ClustersToCursor()))
    {
      hide Volume.Valid, Volume.Vol, Fat, FileState, CountRight, Cut, Sectors, CluIdx, Bound, OnlyChain, Geo.Valid,
           Home, RunLength;
      hide AllDistinct, IsVolume, OfChain;
      ghost var ch := chain;
      SectorsApartOnce();
      var m, vol0, winsect0 := CutAfterCursor();
      CursorBound();
      DropTail(m, vol0, winsect0);
      modified := true;
      TailGone(ch, m);
      BufferOfCut(ch, m);
    }

    /**
      f_truncate: the contents end at the cursor, the chain at the cluster of the
      cursor, and exactly the other clusters are free again.  The buffer is left
      showing a sector of the file exactly when that sector lies in front of the cut.
      */
    method Truncate() returns (res: Result)
      requires Valid()
      modifies fs`disk, fs`wflag, fs`winsect, fs`freeClst, fs`fsiDirty, fs.win
      modifies `sclust, `chain, `dirty, `objsize, `contents, `modified
      ensures Valid()
      ensures res == if !isOpen then InvalidObject else if err != Ok then err else if !canWrite then Denied else Ok
      ensures res != Ok || fptr >= old(objsize) ==>
        contents == old(contents) && chain == old(chain) && modified == old(modified) && dirty == old(dirty) &&
        fs.Vol() == old(fs.Vol()) && fs.winsect == old(fs.winsect)
      ensures res == Ok && fptr < old(objsize) ==>
        && contents == old(contents)[..fptr] && modified && !dirty
        && ClustersToCursor() <= |old(chain)| && chain == old(chain)[..ClustersToCursor()]
        && Cut(old(fs.FatSeq()), old(chain), ClustersToCursor(), fs.FatSeq())
      ensures InArea(fs.g, old(chain)) && OnlyChain(fs.g, old(fs.Vol()), fs.Vol(), old(chain))
      ensures old(CountRight(fs.freeClst, fs.FatSeq())) ==> CountRight(fs.freeClst, fs.FatSeq())
      ensures fs.winsect == old(fs.winsect) || fs.g.InFat1(fs.winsect)
      ensures chain == old(chain) ==> (Home() <==> old(Home()))
      ensures res == Ok && fptr < old(objsize) ==>
        forall k :: 0 <= k < |old(Secs())| && sect == old(Secs())[k] ==>
          (Home() <==> k < RunLength(fs.g.csize, ClustersToCursor()))
      ensures Quiet()
    {
      hide Volume.Valid, Volume.Vol, Fat, FileState, CountRight, Cut, Sectors, CluIdx, Bound, OnlyChain, Geo.Valid,
           RunLength, OfChain;
      OnlyChainRefl(fs.g, fs.Vol(), chain);
      if !isOpen {
        return InvalidObject;
      }
      if err != Ok {
        return err;
      }
      if !canWrite {
        return Denied;
      }
      res := Ok;
      if fptr < objsize {
        TruncateHere();
      }
    }

    lemma CursorBound()
      requires fs.g.csize > 0
      ensures fptr <= Bound(fs.g.csize, ClustersToCursor())
      ensures fptr % SECTOR_SIZE != 0 ==> fptr / SECTOR_SIZE < RunLength(fs.g.csize, ClustersToCursor())
    {
      hide CluIdx;
      if fptr > 0 {
        BoundsOfByte(fs.g.csize, fptr - 1);
      }
    }

    /** The cursor still stands in the shorter chain. */
    lemma TailGone(ch: seq<nat>, m: nat)
      requires InArea(fs.g, ch) && InArea(fs.g, chain) && fs.g.csize > 0
      requires m == ClustersToCursor() && m <= |ch| && chain == ch[..m] && (fptr > 0 ==> clust == ch[m - 1])
      requires fptr % SECTOR_SIZE != 0 ==>
        fptr / SECTOR_SIZE < |Sectors(fs.g, ch)| && sect == Sectors(fs.g, ch)[fptr / SECTOR_SIZE]
      ensures OnCluster() && OnSector()
    {
      hide CluIdx, Bound, Sectors;
      CursorBound();
      SectorsPrefix(fs.g, chain, ch);
    }

    lemma SectorsApartOnce()
      requires Core()
      ensures AllDistinct(Secs()) && 0 !in Secs()
    {
      hide Volume.Valid, Volume.Vol, Fat, Sectors;
      StateSectors(fs.g, fs.Vol(), fs.winsect, chain, contents, sect, dirty, buf[..]);
    }

    /** The buffer shows a sector of the shorter chain exactly when it lies in front of the cut. */
    lemma BufferOfCut(ch: seq<nat>, m: nat)
      requires Core() && InArea(fs.g, ch) && m <= |ch| && chain == ch[..m] && AllDistinct(Sectors(fs.g, ch))
      requires 0 !in Sectors(fs.g, ch)
      ensures forall k :: 0 <= k < |Sectors(fs.g, ch)| && sect == Sectors(fs.g, ch)[k] ==>
        (Home() <==> k < RunLength(fs.g.csize, m))
    {
      hide Volume.Valid, Volume.Vol, Fat, FileState, Sectors;
      SectorsPrefix(fs.g, chain, ch);
      forall k | 0 <= k < |Sectors(fs.g, ch)| && sect == Sectors(fs.g, ch)[k]
        ensures Home() <==> k < RunLength(fs.g.csize, m)
      {
        if k < RunLength(fs.g.csize, m) {
          assert Sectors(fs.g, chain)[k] == sect;
        }
      }
    }

    // ---- synchronizing

    /** The directory entry of this file on a volume. */
    ghost function EntryOn(vol: seq<Sector>): Entry32
      requires dirSect < |vol| && dirPtr + ENTRY_SIZE <= SECTOR_SIZE
    {
      vol[dirSect][dirPtr..dirPtr + ENTRY_SIZE]
    }

    /** The sector of the entry once start cluster, size and time are recorded in it; its other bytes stay. */
    ghost function WithEntry(vol: seq<Sector>, tm: nat): Sector
      requires dirSect < |vol| && dirPtr + ENTRY_SIZE <= SECTOR_SIZE
      reads `sclust, `objsize
    {
      Patch(vol[dirSect], dirPtr, RecordEntry(fs.g.fsType, EntryOn(vol), sclust, objsize, tm))
    }

    /** The directory entry lies apart from the table, FSInfo and the file's own sectors. */
    ghost predicate Placed()
      requires InArea(fs.g, chain)
      reads `chain, `sect
    {
      && dirSect < fs.g.devSize && dirPtr + ENTRY_SIZE <= SECTOR_SIZE
      && fs.g.OutsideFats(dirSect) && dirSect != fs.g.volbase + 1
      && dirSect !in Secs() && dirSect != sect
    }

    /** Update the entry in the window. */
    method Record(tm: nat)
      requires Core() && Recorded() && !dirty && Placed()
      modifies fs`disk, fs`wflag, fs`winsect, fs.win
      ensures Core() && fs.winsect == dirSect && fs.FatSeq() == old(fs.FatSeq())
      ensures fs.Vol()[dirSect] == WithEntry(old(fs.Vol()), tm)
      ensures forall s: nat :: s < fs.g.devSize && s != dirSect ==> fs.Vol()[s] == old(fs.Vol())[s]
    {
      hide Volume.Valid, Volume.Vol, Fat, FileState, Sectors, RecordEntry, Patch;
      ghost var vol, winsect := fs.Vol(), fs.winsect;
      fs.MoveWindow(dirSect);
      var e: Entry32 := fs.win[dirPtr..dirPtr + ENTRY_SIZE];
      var e' := RecordEntry(fs.g.fsType, e, sclust, objsize, tm);
      fs.EditWindow(dirPtr, e');
      assert !fs.g.InFat1(dirSect);
      FatFrame(fs.g, vol, fs.Vol());
      StateBuffer(fs.g, vol, winsect, chain, contents, sect, dirty, buf[..]);
      StateElsewhere(fs.g, vol, winsect, chain, contents, sect, dirty, buf[..], fs.Vol(), dirSect);
    }

    /** sync_fs while this file is open. */
    method SyncVolume()
      requires Core() && !dirty
      modifies fs`disk, fs`wflag, fs`winsect, fs`fsiDirty, fs.win
      ensures Core() && !fs.wflag && fs.disk == fs.Vol()
      ensures fs.FatSeq() == old(fs.FatSeq())
      ensures forall s: nat :: s < fs.g.devSize && s != fs.g.volbase + 1 ==> fs.Vol()[s] == old(fs.Vol())[s]
      ensures fs.winsect == old(fs.winsect) || fs.winsect == dirSect || fs.winsect == fs.g.volbase + 1
    {
      hide Volume.Valid, Volume.Vol, Fat, FileState, Sectors, FsInfo;
      ghost var vol, winsect := fs.Vol(), fs.winsect;
      StateBuffer(fs.g, vol, winsect, chain, contents, sect, dirty, buf[..]);
      StateSectors(fs.g, vol, winsect, chain, contents, sect, dirty, buf[..]);
      FsInfoApart(fs.g, vol, winsect, chain, contents, sect, dirty, buf[..]);
      assert !fs.fsiOff ==> !fs.g.InFat1(fs.g.volbase + 1) by {
        FsInfoBeforeFat(fs);
      }
      fs.SyncFs();
      FatFrame(fs.g, vol, fs.Vol());
      StateElsewhere(fs.g, vol, winsect, chain, contents, sect, dirty, buf[..], fs.Vol(), fs.winsect);
    }

    /**
      f_sync: a changed file is completely on the device: data, table, size and
      start cluster in its directory entry.
      */
    method Sync(tm: nat) returns (res: Result)
      requires Valid() && Placed()
      modifies fs`disk, fs`wflag, fs`winsect, fs`fsiDirty, fs.win, `dirty, `modified
      ensures Valid() && fs.FatSeq() == old(fs.FatSeq())
      ensures res == if isOpen then Ok else InvalidObject
      ensures !isOpen || !old(modified) ==>
        modified == old(modified) && dirty == old(dirty) && fs.disk == old(fs.disk) && fs.wflag == old(fs.wflag) &&
        fs.Vol() == old(fs.Vol()) && fs.winsect == old(fs.winsect)
      ensures isOpen && old(modified) ==>
        && !modified && !dirty && !fs.wflag && fs.disk == fs.Vol()
        && fs.disk[dirSect] == WithEntry(old(View()), tm)
        && (forall s: nat :: s < fs.g.devSize && s != dirSect && s != fs.g.volbase + 1 ==> fs.disk[s] == old(View())[s])
        && FileRep(fs.disk, Secs(), contents)
      ensures fs.winsect == old(fs.winsect) || fs.winsect == dirSect || fs.winsect == fs.g.volbase + 1
    {
      hide Volume.Valid, Volume.Vol, Fat, FileState, Sectors, RecordEntry;
      if !isOpen {
        return InvalidObject;
      }
      if modified {
        SyncChanged(tm);
        modified := false;
      }
      return Ok;
    }

    method SyncChanged(tm: nat)
      requires Core() && Recorded() && Placed()
      modifies fs`disk, fs`wflag, fs`winsect, fs`fsiDirty, fs.win, `dirty
      ensures Core() && fs.FatSeq() == old(fs.FatSeq())
      ensures !dirty && !fs.wflag && fs.disk == fs.Vol() && FileRep(fs.disk, Secs(), contents)
      ensures sect < fs.g.devSize && fs.disk[dirSect] == WithEntry(old(View()), tm)
      ensures forall s: nat :: s < fs.g.devSize && s != dirSect && s != fs.g.volbase + 1 ==>
        fs.disk[s] == old(View())[s]
      ensures fs.winsect == old(fs.winsect) || fs.winsect == dirSect || fs.winsect == fs.g.volbase + 1
    {
      hide Volume.Valid, Volume.Vol, Fat, FileState, Sectors, RecordEntry, View, FileRep, OnlyChain;
      CleanView();
      if dirty {
        FlushBuf();
      }
      Record(tm);
      SyncVolume();
      CleanView();
    }

    /** A clean file is on the logical volume as it is. */
    lemma CleanView()
      requires Core()
      ensures sect < fs.g.devSize
      ensures !dirty ==> View() == fs.Vol() && FileRep(fs.Vol(), Secs(), contents)
    {
      hide Volume.Valid, Volume.Vol, Fat, FileRep, Sectors, Holds;
      if !dirty {
        CleanOver(fs.Vol(), sect, buf[..]);
      }
    }

    /** f_close: synchronize and invalidate the file object. */
    method Close(tm: nat) returns (res: Result)
      requires Valid() && Placed()
      modifies fs`disk, fs`wflag, fs`winsect, fs`fsiDirty, fs.win, `dirty, `modified, `isOpen
      ensures Valid() && fs.FatSeq() == old(fs.FatSeq()) && !isOpen
      ensures res == if old(isOpen) then Ok else InvalidObject
      ensures old(isOpen) && old(modified) ==>
        && !modified && !dirty && !fs.wflag && fs.disk == fs.Vol()
        && fs.disk[dirSect] == WithEntry(old(View()), tm)
        && (forall s: nat :: s < fs.g.devSize && s != dirSect && s != fs.g.volbase + 1 ==> fs.disk[s] == old(View())[s])
        && FileRep(fs.disk, Secs(), contents)
      ensures !old(isOpen) || !old(modified) ==>
        modified == old(modified) && dirty == old(dirty) && fs.disk == old(fs.disk) && fs.wflag == old(fs.wflag) &&
        fs.Vol() == old(fs.Vol()) && fs.winsect == old(fs.winsect)
      ensures fs.winsect == old(fs.winsect) || fs.winsect == dirSect || fs.winsect == fs.g.volbase + 1
    {
      hide Volume.Valid, Volume.Vol, Fat, FileState, Sectors, RecordEntry;
      CleanView();
      res := Sync(tm);
      if res == Ok {
        isOpen := false;
      }
    }
  }

  /**
    Whatever way a cursor came to its position (from the current cluster, along
    the chain from its head, or by reading and writing), the position decides
    cluster, sector and the buffered bytes of the file.
    */
  lemma CursorDetermined(f: File, h: File)
    requires f.Valid() && h.Valid() && f.err == Ok && h.err == Ok && f.fs.g == h.fs.g
    requires f.chain == h.chain && f.fptr == h.fptr
    ensures f.fptr > 0 ==> f.clust == h.clust
    ensures f.fptr % SECTOR_SIZE != 0 ==> f.sect == h.sect
    ensures f.fptr % SECTOR_SIZE != 0 && f.contents == h.contents ==>
      forall p :: 0 <= p < SECTOR_SIZE && f.fptr / SECTOR_SIZE * SECTOR_SIZE + p < |f.contents| ==>
        f.buf[..][p] == h.buf[..][p]
  {
    hide Volume.Valid, Volume.Vol, Fat, Sectors, CluIdx, Holds;
    if f.fptr % SECTOR_SIZE != 0 && f.contents == h.contents {
      var k := f.fptr / SECTOR_SIZE;
      forall p: nat | p < SECTOR_SIZE && k * SECTOR_SIZE + p < |f.contents|
        ensures f.buf[..][p] == f.contents[k * SECTOR_SIZE + p] == h.buf[..][p]
      {
        f.BufferHolds(k, p, 1);
        h.BufferHolds(k, p, 1);
        assert f.buf[..][p] == f.buf[..][p..p + 1][0] && h.buf[..][p] == h.buf[..][p..p + 1][0];
      }
    }
  }
}
