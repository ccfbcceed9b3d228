/**
  Two ways to one position: dir_sdi against steps of dir_next, and f_lseek from
  the current cluster against f_lseek from the head of the chain.
  */
module Positions {
  import opened Bytes
  import opened Geometry
  import opened FatTable
  import opened FileSystem
  import opened Chains
  import opened Allocation
  import opened FileData
  import opened Files
  import opened Entries
  import opened Directory
  import opened DirTable
  import opened Directories

  /**
    Standing at an offset at once, and at the top with one step after another,
    succeed for the same offsets and end in the same position.
    */
  method SdiAgainstSteps(a: Dir, b: Dir, i: nat) returns (res: Result, res': Result)
    requires a != b && a.fs == b.fs && a.sclust == b.sclust && a.chain == b.chain && a.Valid() && b.Valid()
    modifies a.fs`disk, a.fs`wflag, a.fs`winsect, a.fs`freeClst, a.fs`lastClst, a.fs`fsiDirty, a.fs.win
    modifies a`dptr, a`clust, a`sect, a`dir, b`chain, b`dptr, b`clust, b`sect, b`dir
    ensures a.Valid() && b.Valid() && b.chain == a.chain && a.fs.Vol() == old(a.fs.Vol())
    ensures res == Ok <==> res' == Ok
    ensures res == Ok ==> a.dptr == b.dptr == i * ENTRY_SIZE && a.clust == b.clust && a.sect == b.sect && a.dir == b.dir
  {
    hide Volume.Valid, Volume.Vol, Dir.Valid, Fat, DirChain, Table, CluIdx, Dir.At, SlotCount, Dir.GrownFrom, Extended,
         Dir.StretchRefused;
    a.TblFacts();
    res := a.Sdi(i * ENTRY_SIZE);
    a.Linked();
    b.Relinked();
    res' := b.Sdi(0);
    ghost var vol := a.fs.Vol();
    var k := 0;
    while k < i && res' == Ok
      invariant k <= i && b.Valid() && b.chain == a.chain && a.fs.Vol() == vol
      invariant res' == Ok ==> b.At(k)
      invariant res == Ok ==> a.At(i)
      invariant res' != Ok ==> SlotCount(b.Tbl()) <= i
      decreases i - k, res' == Ok
    {
      res' := b.Next(false, k);
      k := k + 1;
    }
    b.Linked();
    a.Relinked();
    if res == Ok {
      PositionDetermined(a, b, i);
    }
  }

  /** Two files in the same state, wherever their cursors stand. */
  ghost predicate SameFile(f: File, h: File)
    requires f.Valid() && h.Valid()
    reads f, h, f.buf, h.buf, f.fs, h.fs, f.fs.win, h.fs.win
  {
    && f.fs.g == h.fs.g && f.fs.FatSeq() == h.fs.FatSeq() && f.fs.freeClst == h.fs.freeClst
    && f.fs.lastClst == h.fs.lastClst
    && f.chain == h.chain && f.contents == h.contents && f.canWrite == h.canWrite
  }

  /** The buffers agree on the bytes of the file. */
  ghost predicate SameBytes(f: File, h: File)
    reads f, h, f.buf, h.buf
  {
    var base := f.fptr / SECTOR_SIZE * SECTOR_SIZE;
    forall p :: 0 <= p < SECTOR_SIZE && p < f.buf.Length && p < h.buf.Length && base + p < |f.contents| ==>
      f.buf[..][p] == h.buf[..][p]
  }

  /** What growing comes to does not depend on the cursor. */
  lemma SameRoom(f: File, h: File, target: nat)
    requires f.Valid() && h.Valid() && SameFile(f, h)
    ensures f.Room(target) == h.Room(target)
  {
    hide GrowTo, Volume.Valid, Volume.Vol, Fat, FileState, Sectors;
  }

  /** Seeking to the top of a file changes nothing but the cursor. */
  method SeekTop(h: File) returns (res: Result)
    requires h.Valid() && h.isOpen && h.err == Ok
    modifies h.fs`disk, h.fs`wflag, h.fs`winsect, h.fs`freeClst, h.fs`lastClst, h.fs`fsiDirty, h.fs.win
    modifies h.buf, h`sclust, h`clust, h`chain, h`dirty, h`err, h`sect, h`fptr, h`objsize, h`contents, h`modified
    ensures h.Valid() && res == Ok == h.err && h.fptr == 0 && h.chain == old(h.chain) && h.contents == old(h.contents)
    ensures h.fs.FatSeq() == old(h.fs.FatSeq()) && h.fs.freeClst == old(h.fs.freeClst)
    ensures h.fs.lastClst == old(h.fs.lastClst)
  {
    hide GrowTo, Volume.Valid, Volume.Vol, Volume.FatSeq, Fat, FileState, Sectors, CluIdx, Extended, OnlyChain, OfChain;
    NoClusters(h.fs.g.csize);
    h.RoomNone(0);
    res := h.Seek(0);
  }

  /** A seek from the head of the chain. */
  method SeekFromHead(h: File, ofs: dword) returns (res: Result)
    requires h.Valid() && h.isOpen && h.err == Ok
    modifies h.fs`disk, h.fs`wflag, h.fs`winsect, h.fs`freeClst, h.fs`lastClst, h.fs`fsiDirty, h.fs.win
    modifies h.buf, h`sclust, h`clust, h`chain, h`dirty, h`err, h`sect, h`fptr, h`objsize, h`contents, h`modified
    ensures h.Valid() && (if res == Ok then h.err == Ok else res == IntErr)
    ensures var target := if ofs > |old(h.contents)| && !h.canWrite then |old(h.contents)| else ofs;
      && old(h.Room(ClustersFor(h.fs.g.csize, if ofs > |h.contents| && !h.canWrite then |h.contents| else ofs))) ==
           h.Now(if res != Ok then BadEntry else if h.fptr == target then Reached else NoRoom)
      && (res == Ok ==> h.fptr == target || h.fptr == Bound(h.fs.g.csize, |h.chain|))
    ensures res == Ok ==>
      && old(h.contents) <= h.contents
      && |h.contents| == (if h.fptr > |old(h.contents)| then h.fptr else |old(h.contents)|)
  {
    hide GrowTo, Volume.Valid, Volume.Vol, Volume.FatSeq, Fat, FileState, Sectors, CluIdx, Extended, OnlyChain, OfChain,
         Bound, ClustersFor, Damaged;
    hide File.Core, File.NoSpace, File.Quiet;
    ghost var goal := ClustersFor(h.fs.g.csize, if ofs > |h.contents| && !h.canWrite then |h.contents| else ofs);
    ghost var room := h.Room(goal);
    res := SeekTop(h);
    assert h.Room(goal) == room;
    res := h.Seek(ofs);
  }

  /**
    A seek that may start in the current cluster, and a seek from the head of the
    chain: the same result, the same clusters allocated, the same position.
    */
  method SeekAgainstHead(f: File, h: File, ofs: dword) returns (res: Result, res': Result)
    requires f.Valid() && h.Valid() && SameFile(f, h) && f.isOpen && h.isOpen && f.err == Ok == h.err
    requires f != h && f.fs != h.fs && f.fs.win != h.fs.win && f.buf != h.buf && f.buf != h.fs.win && h.buf != f.fs.win
    modifies f.fs`disk, f.fs`wflag, f.fs`winsect, f.fs`freeClst, f.fs`lastClst, f.fs`fsiDirty, f.fs.win, f, f.buf
    modifies h.fs`disk, h.fs`wflag, h.fs`winsect, h.fs`freeClst, h.fs`lastClst, h.fs`fsiDirty, h.fs.win, h, h.buf
    ensures f.Valid() && h.Valid() && res == res' && f.fs.FatSeq() == h.fs.FatSeq() && f.chain == h.chain
    ensures f.fs.freeClst == h.fs.freeClst && f.fs.lastClst == h.fs.lastClst
    ensures res == Ok ==>
      && f.fptr == h.fptr && |f.contents| == |h.contents| && (f.fptr > 0 ==> f.clust == h.clust)
      && (f.fptr % SECTOR_SIZE != 0 ==> f.sect == h.sect)
      && (f.fptr <= |old(f.contents)| ==> f.contents == h.contents == old(f.contents) && (f.fptr % SECTOR_SIZE != 0 ==>
            SameBytes(f, h)))
  {
    hide GrowTo, Volume.Valid, Volume.Vol, Volume.FatSeq, Fat, FileState, Sectors, CluIdx, Extended, OnlyChain, OfChain,
         Bound, ClustersFor, Damaged;
    hide File.Core, File.Room, File.NoSpace, File.Quiet;
    ghost var goal := ClustersFor(f.fs.g.csize, if ofs > f.objsize && !f.canWrite then f.objsize else ofs);
    SameRoom(f, h, goal);
    res := f.Seek(ofs);
    res' := SeekFromHead(h, ofs);
    if res == Ok {
      CursorDetermined(f, h);
    }
  }
}
