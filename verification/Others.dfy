/**
  What an operation on one object leaves alone: files and directories that
  share no cluster with it.
  */
module Others {
  import opened Bytes
  import opened Geometry
  import opened FatTable
  import opened Chains
  import opened Allocation
  import opened FileData
  import opened Entries
  import opened Directory
  import opened DirTable
  import opened Directories
  import opened FileSystem
  import opened Files

  /** A chain in the table whose sectors hold the bytes. */
  ghost predicate FileHeld(g: Geo, vol: seq<Sector>, ch: seq<nat>, bytes: seq<byte>) {
    IsVolume(g, vol) && Holds(Fat(g, vol), ch) && InArea(g, ch) && FileRep(vol, Sectors(g, ch), bytes)
  }

  /** Growing one chain with free clusters keeps every other chain, and keeps them apart. */
  lemma ExtendedApart(fat: seq<nat>, ch: seq<nat>, fat': seq<nat>, ch': seq<nat>, other: seq<nat>)
    requires Holds(fat, other) && Apart(other, ch) && Extended(fat, ch, fat', ch')
    ensures Holds(fat', other) && Apart(other, ch') && Apart(ch', other)
  {
    hide IsChain;
    forall c | c in other
      ensures c !in ch'
    {
      LinkNotFree(fat, other, c);
    }
    ChainFrame(fat, other, fat');
  }

  /** Cutting one chain keeps every other chain. */
  lemma CutApart(fat: seq<nat>, ch: seq<nat>, m: nat, fat': seq<nat>, other: seq<nat>)
    requires Holds(fat, other) && Apart(other, ch) && Cut(fat, ch, m, fat')
    ensures Holds(fat', other) && Apart(other, ch[..m]) && Apart(ch[..m], other)
  {
    hide IsChain;
    assert forall c :: c in ch[..m] ==> c in ch;
    ChainFrame(fat, other, fat');
  }

  /** No sector of a directory is a sector of a file apart from it. */
  lemma FileBesideTable(g: Geo, fat: seq<nat>, sclust: nat, dch: seq<nat>, ch: seq<nat>, s: nat)
    requires g.Valid() && |fat| == g.nFatent && DirChain(g, fat, sclust, dch) && InArea(g, ch) && Apart(dch, ch)
    requires InArea(g, dch) && s in Table(g, sclust, dch)
    ensures s !in Sectors(g, ch)
  {
    hide Sectors, IsChain;
    if IsStatic(g, sclust) {
      StaticTable(g);
      if s in Sectors(g, ch) {
        SectorsInData(g, ch, s);
      }
    } else {
      SectorsApart(g, dch, ch, s);
    }
  }

  /** A directory apart from a chain keeps its slots when only that chain and the table change. */
  lemma DirectoryKept(g: Geo, vol: seq<Sector>, vol': seq<Sector>, ch: seq<nat>, sclust: nat, dch: seq<nat>)
    requires IsVolume(g, vol) && IsVolume(g, vol') && InArea(g, ch) && OnlyChain(g, vol, vol', ch)
    requires InArea(g, dch) && DirChain(g, Fat(g, vol), sclust, dch) && Apart(dch, ch)
    ensures OnVolume(vol, Table(g, sclust, dch)) && OnVolume(vol', Table(g, sclust, dch))
    ensures Slots(vol', Table(g, sclust, dch)) == Slots(vol, Table(g, sclust, dch))
    ensures forall s :: s in Table(g, sclust, dch) ==> s !in Sectors(g, ch)
  {
    hide Sectors, Fat, IsChain, Table, Slots, DirChain;
    TableSectors(g, Fat(g, vol), sclust, dch);
    var tbl := Table(g, sclust, dch);
    forall s | s in tbl
      ensures s !in Sectors(g, ch) && s < g.devSize && vol'[s] == vol[s]
    {
      FileBesideTable(g, Fat(g, vol), sclust, dch, ch, s);
    }
    SlotsFrame(vol, vol', tbl);
  }

  /** The chain of a directory is kept with the other chains. */
  lemma DirChainKept(g: Geo, fat: seq<nat>, fat': seq<nat>, sclust: nat, dch: seq<nat>)
    requires DirChain(g, fat, sclust, dch) && (dch != [] ==> Holds(fat', dch))
    ensures DirChain(g, fat', sclust, dch)
  {
  }

  lemma ApartBoth(a: seq<nat>, b: seq<nat>)
    requires Apart(a, b)
    ensures Apart(b, a)
  {
  }

  // ---- what is spared

  /** The chain ch keeps its links and its sectors. */
  ghost predicate Spared(g: Geo, vol: seq<Sector>, vol': seq<Sector>, ch: seq<nat>) {
    && IsVolume(g, vol) && IsVolume(g, vol') && InArea(g, ch) && Holds(Fat(g, vol), ch) && Holds(Fat(g, vol'), ch)
    && forall s :: s in Sectors(g, ch) && s < g.devSize ==> vol'[s] == vol[s]
  }

  lemma SparedTrans(g: Geo, vol: seq<Sector>, vol1: seq<Sector>, vol2: seq<Sector>, ch: seq<nat>)
    requires Spared(g, vol, vol1, ch) && Spared(g, vol1, vol2, ch)
    ensures Spared(g, vol, vol2, ch)
  {
    hide Sectors, Fat, Holds;
  }

  /** A spared file keeps its bytes, */
  lemma SparedHeld(g: Geo, vol: seq<Sector>, vol': seq<Sector>, ch: seq<nat>, bytes: seq<byte>)
    requires Spared(g, vol, vol', ch) && FileHeld(g, vol, ch, bytes)
    ensures FileHeld(g, vol', ch, bytes)
  {
    hide Sectors, Fat, Holds, FileRep;
    RepFrame(vol, Sectors(g, ch), bytes, vol');
  }

  /** and a spared sub-directory its slots. */
  lemma SparedSlots(g: Geo, vol: seq<Sector>, vol': seq<Sector>, ch: seq<nat>)
    requires Spared(g, vol, vol', ch)
    ensures OnVolume(vol, Sectors(g, ch)) && OnVolume(vol', Sectors(g, ch))
    ensures Slots(vol', Sectors(g, ch)) == Slots(vol, Sectors(g, ch))
  {
    hide Sectors, Fat, Holds, Slots;
    forall k | 0 <= k < |Sectors(g, ch)|
      ensures Sectors(g, ch)[k] < g.devSize
    {
      SectorsInData(g, ch, Sectors(g, ch)[k]);
    }
    SlotsFrame(vol, vol', Sectors(g, ch));
  }

  /** What the file operations do to a chain: they grow it or cut it; touched are the clusters concerned. */
  ghost predicate ChainStep(fat: seq<nat>, ch: seq<nat>, fat': seq<nat>, ch': seq<nat>, touched: seq<nat>) {
    || (Extended(fat, ch, fat', ch') && touched == ch')
    || (touched == ch && exists m: nat :: m <= |ch| && ch' == ch[..m] && Cut(fat, ch, m, fat'))
  }

  /** Every other chain is kept, apart from everything the step touches. */
  lemma StepApart(fat: seq<nat>, ch: seq<nat>, fat': seq<nat>, ch': seq<nat>, touched: seq<nat>, other: seq<nat>)
    requires ChainStep(fat, ch, fat', ch', touched) && Holds(fat, other) && Apart(other, ch)
    ensures Holds(fat', other) && Apart(other, ch') && Apart(other, touched)
  {
    hide IsChain, Extended, Cut;
    if Extended(fat, ch, fat', ch') && touched == ch' {
      ExtendedApart(fat, ch, fat', ch', other);
    } else {
      var m: nat :| m <= |ch| && ch' == ch[..m] && Cut(fat, ch, m, fat');
      CutApart(fat, ch, m, fat', other);
    }
  }

  /** A step keeps the ownership of every cluster. */
  lemma StepOwned(fat: seq<nat>, owners: map<nat, seq<nat>>, bad: set<nat>, k: nat, fat': seq<nat>, ch': seq<nat>,
                  touched: seq<nat>)
    requires Owned(fat, owners, bad) && k in owners && ChainStep(fat, owners[k], fat', ch', touched)
    ensures Owned(fat', owners[k := ch'], bad)
  {
    hide Owned, Extended, Cut;
    if Extended(fat, owners[k], fat', ch') && touched == ch' {
      ExtendKeepsOwned(fat, owners, bad, k, fat', ch');
    } else {
      var m: nat :| m <= |owners[k]| && ch' == owners[k][..m] && Cut(fat, owners[k], m, fat');
      CutKeepsOwned(fat, owners, bad, k, m, fat');
    }
  }

  /** Growing and cutting chains make no error values. */
  lemma ExtendedUndamaged(fat: seq<nat>, ch: seq<nat>, fat': seq<nat>, ch': seq<nat>)
    requires Extended(fat, ch, fat', ch') && !Damaged(fat)
    ensures !Damaged(fat')
  {
    hide IsChain;
    forall c: nat | 2 <= c < |fat'|
      ensures fat'[c] != 1
    {
      if c in ch' {
        LinkNotFree(fat', ch', c);
      }
    }
  }

  lemma CutUndamaged(fat: seq<nat>, ch: seq<nat>, m: nat, fat': seq<nat>)
    requires Cut(fat, ch, m, fat') && !Damaged(fat)
    ensures !Damaged(fat')
  {
    hide IsChain;
    forall c: nat | 2 <= c < |fat'|
      ensures fat'[c] != 1
    {
      if c in ch {
        var i :| 0 <= i < |ch| && ch[i] == c;
        if i < m {
          assert ch[..m][i] == c;
          LinkNotFree(fat', ch[..m], c);
        }
      }
    }
  }

  /** A step loses and makes no clusters, and no error values. */
  lemma StepCounted(fat: seq<nat>, ch: seq<nat>, fat': seq<nat>, ch': seq<nat>, touched: seq<nat>)
    requires Holds(fat, ch) && ChainStep(fat, ch, fat', ch', touched)
    ensures |ch'| + FreeCount(fat') == |ch| + FreeCount(fat) && (!Damaged(fat) ==> !Damaged(fat'))
  {
    hide IsChain, Extended, Cut, Damaged, FreeCount;
    if Extended(fat, ch, fat', ch') && touched == ch' {
      ExtendedCount(fat, ch, fat', ch');
      if !Damaged(fat) {
        ExtendedUndamaged(fat, ch, fat', ch');
      }
    } else {
      var m: nat :| m <= |ch| && ch' == ch[..m] && Cut(fat, ch, m, fat');
      CutCount(fat, ch, m, fat');
      if !Damaged(fat) {
        CutUndamaged(fat, ch, m, fat');
      }
    }
  }

  /** f_write, f_read, f_lseek and f_truncate on one file spare every chain apart from it. */
  lemma SparedByStep(g: Geo, vol: seq<Sector>, ch: seq<nat>, vol': seq<Sector>, ch': seq<nat>, touched: seq<nat>,
                     other: seq<nat>)
    requires IsVolume(g, vol) && IsVolume(g, vol') && InArea(g, touched) && OnlyChain(g, vol, vol', touched)
    requires ChainStep(Fat(g, vol), ch, Fat(g, vol'), ch', touched) && Holds(Fat(g, vol), other) && Apart(other, ch)
    ensures Spared(g, vol, vol', other) && Apart(other, ch')
  {
    hide Sectors, Fat, Holds, ChainStep;
    StepApart(Fat(g, vol), ch, Fat(g, vol'), ch', touched, other);
    ChainInArea(g, vol, other);
    forall s | s in Sectors(g, other) && s < g.devSize
      ensures vol'[s] == vol[s]
    {
      SectorsInData(g, other, s);
      SectorsApart(g, other, touched, s);
    }
  }

  /** Nothing but the allocation table, the sectors of the table tbl, those of added clusters and FSInfo differs. */
  ghost predicate OnlyBeside(g: Geo, vol: seq<Sector>, vol': seq<Sector>, tbl: seq<nat>, added: seq<nat>)
    requires IsVolume(g, vol) && IsVolume(g, vol') && InArea(g, added)
  {
    forall s: nat :: s < g.devSize && g.OutsideFats(s) && s !in tbl && s !in Sectors(g, added) && s != g.volbase + 1 ==>
      vol'[s] == vol[s]
  }

  lemma OnlyTableBeside(g: Geo, vol: seq<Sector>, vol': seq<Sector>, tbl: seq<nat>)
    requires IsVolume(g, vol) && IsVolume(g, vol') && OnlyTable(g, vol, vol', tbl)
    ensures InArea(g, []) && OnlyBeside(g, vol, vol', tbl, [])
  {
  }

  /** A sector of a chain apart from a directory and from added clusters is none of theirs, nor FSInfo. */
  lemma SectorBeside(g: Geo, fat: seq<nat>, sclust: nat, dch: seq<nat>, added: seq<nat>, other: seq<nat>, s: nat)
    requires g.Valid() && |fat| == g.nFatent && DirChain(g, fat, sclust, dch) && InArea(g, dch) && InArea(g, added)
    requires InArea(g, other) && Apart(dch, other) && Apart(other, added) && s in Sectors(g, other)
    ensures g.database <= s < g.devSize && g.OutsideFats(s) && s !in Table(g, sclust, dch) && s !in Sectors(g, added)
    ensures s != g.volbase + 1
  {
    hide Sectors, DirChain, Table;
    SectorsInData(g, other, s);
    SectorsApart(g, other, added, s);
    if s in Table(g, sclust, dch) {
      FileBesideTable(g, fat, sclust, dch, other, s);
    }
    FsInfoInFront(g);
    DataBehindFat(g);
  }

  lemma DataBehindFat(g: Geo)
    requires g.Valid()
    ensures g.fatbase + g.FatArea() <= g.database
  {
  }

  /** f_open, f_unlink and f_mkdir in a directory spare every chain that is still there and apart from it. */
  lemma SparedByDir(g: Geo, vol: seq<Sector>, vol': seq<Sector>, sclust: nat, dch: seq<nat>, added: seq<nat>,
                    other: seq<nat>)
    requires IsVolume(g, vol) && IsVolume(g, vol') && DirChain(g, Fat(g, vol'), sclust, dch) && InArea(g, dch)
    requires InArea(g, added)
    requires OnlyBeside(g, vol, vol', Table(g, sclust, dch), added)
    requires Holds(Fat(g, vol), other) && Holds(Fat(g, vol'), other) && Apart(dch, other) && Apart(other, added)
    ensures Spared(g, vol, vol', other)
  {
    hide Sectors, Fat, Holds, DirChain, Table;
    ChainInArea(g, vol, other);
    forall s | s in Sectors(g, other) && s < g.devSize
      ensures vol'[s] == vol[s]
    {
      SectorBeside(g, Fat(g, vol'), sclust, dch, added, other, s);
    }
  }

  // ---- what that means for a file

  /** Writing or seeking in one file (its chain grows) leaves every other file's chain and bytes alone, */
  lemma OtherFileKept(g: Geo, vol: seq<Sector>, ch: seq<nat>, vol': seq<Sector>, ch': seq<nat>, other: seq<nat>,
                      bytes: seq<byte>)
    requires FileHeld(g, vol, other, bytes) && IsVolume(g, vol') && InArea(g, ch') && Apart(other, ch)
    requires Extended(Fat(g, vol), ch, Fat(g, vol'), ch') && OnlyChain(g, vol, vol', ch')
    ensures FileHeld(g, vol', other, bytes) && Apart(other, ch')
  {
    hide Sectors, FileRep, Fat, Holds, Extended, OnlyChain;
    SparedByStep(g, vol, ch, vol', ch', ch', other);
    SparedHeld(g, vol, vol', other, bytes);
  }

  /** and so do truncating it, */
  lemma OtherFileKeptByCut(g: Geo, vol: seq<Sector>, ch: seq<nat>, m: nat, vol': seq<Sector>, other: seq<nat>,
                           bytes: seq<byte>)
    requires FileHeld(g, vol, other, bytes) && IsVolume(g, vol') && InArea(g, ch) && Apart(other, ch)
    requires Cut(Fat(g, vol), ch, m, Fat(g, vol')) && OnlyChain(g, vol, vol', ch)
    ensures FileHeld(g, vol', other, bytes) && Apart(other, ch[..m])
  {
    hide Sectors, FileRep, Fat, Holds, Cut, OnlyChain;
    CutBounds(Fat(g, vol), ch, m, Fat(g, vol'));
    SparedByStep(g, vol, ch, vol', ch[..m], ch, other);
    SparedHeld(g, vol, vol', other, bytes);
  }

  lemma CutBounds(fat: seq<nat>, ch: seq<nat>, m: nat, fat': seq<nat>)
    requires Cut(fat, ch, m, fat')
    ensures m <= |ch|
  {
  }

  /** changing a directory apart from it, */
  lemma OtherFileKeptByDir(g: Geo, vol: seq<Sector>, sclust: nat, dch: seq<nat>, vol': seq<Sector>, dch': seq<nat>,
                           other: seq<nat>, bytes: seq<byte>)
    requires FileHeld(g, vol, other, bytes) && IsVolume(g, vol') && Apart(other, dch)
    requires DirChain(g, Fat(g, vol'), sclust, dch') && InArea(g, dch')
    requires Extended(Fat(g, vol), dch, Fat(g, vol'), dch') && OnlyTable(g, vol, vol', Table(g, sclust, dch'))
    ensures FileHeld(g, vol', other, bytes) && Apart(other, dch') && Apart(dch', other)
  {
    hide Sectors, FileRep, Fat, Holds, Extended, Table, DirChain, OnlyTable, OnlyBeside;
    ExtendedApart(Fat(g, vol), dch, Fat(g, vol'), dch', other);
    OnlyTableBeside(g, vol, vol', Table(g, sclust, dch'));
    SparedByDir(g, vol, vol', sclust, dch', [], other);
    SparedHeld(g, vol, vol', other, bytes);
  }

  /** f_unlink of another object, */
  lemma OtherFileKeptByUnlink(g: Geo, vol: seq<Sector>, vol': seq<Sector>, sclust: nat, dch: seq<nat>, ch: seq<nat>,
                              other: seq<nat>, bytes: seq<byte>)
    requires FileHeld(g, vol, other, bytes) && IsVolume(g, vol') && Apart(other, ch) && Apart(other, dch)
    requires DirChain(g, Fat(g, vol'), sclust, dch) && InArea(g, dch)
    requires Cut(Fat(g, vol), ch, 0, Fat(g, vol')) && InArea(g, [])
    requires OnlyBeside(g, vol, vol', Table(g, sclust, dch), [])
    ensures FileHeld(g, vol', other, bytes)
  {
    hide Sectors, FileRep, Fat, Holds, Table, DirChain, Cut, OnlyBeside;
    CutApart(Fat(g, vol), ch, 0, Fat(g, vol'), other);
    ApartBoth(other, dch);
    SparedByDir(g, vol, vol', sclust, dch, [], other);
    SparedHeld(g, vol, vol', other, bytes);
  }

  /** and f_mkdir. */
  lemma OtherFileKeptByMkdir(g: Geo, vol: seq<Sector>, vol': seq<Sector>, sclust: nat, dch: seq<nat>, fat1: seq<nat>,
                             dch': seq<nat>, dcl: nat, other: seq<nat>, bytes: seq<byte>)
    requires FileHeld(g, vol, other, bytes) && IsVolume(g, vol') && Apart(other, dch)
    requires Extended(Fat(g, vol), [], fat1, [dcl]) && Extended(fat1, dch, Fat(g, vol'), dch')
    requires DirChain(g, Fat(g, vol'), sclust, dch') && InArea(g, dch') && InArea(g, [dcl])
    requires OnlyBeside(g, vol, vol', Table(g, sclust, dch'), [dcl])
    ensures FileHeld(g, vol', other, bytes) && Apart(other, dch') && Apart(other, [dcl])
  {
    hide Sectors, FileRep, Fat, Holds, Table, DirChain, Extended, OnlyBeside;
    ExtendedApart(Fat(g, vol), [], fat1, [dcl], other);
    ExtendedApart(fat1, dch, Fat(g, vol'), dch', other);
    SparedByDir(g, vol, vol', sclust, dch', [dcl], other);
    SparedHeld(g, vol, vol', other, bytes);
  }

  // ---- files that are open at the same time

  /** The open file h while a call on f touches some clusters. */
  datatype Turn = Turn(f: File, h: File, touched: seq<nat>)

  /** The open file h while the directory dj is changed, and added clusters are written. */
  datatype Around = Around(dj: Dir, h: File, added: seq<nat>)

  /** f_write, f_read, f_lseek or f_truncate on one file leave the whole state of another open file as it is. */
  twostate lemma OtherOpenFileKept(t: Turn)
    requires t.f.fs == t.h.fs && unchanged(t.h) && unchanged(t.h.buf) && old(t.h.Valid())
    requires old(Apart(t.h.chain, t.f.chain)) && t.h.Attached() && InArea(t.h.fs.g, t.touched)
    requires OnlyChain(t.f.fs.g, old(t.f.fs.Vol()), t.f.fs.Vol(), t.touched)
    requires ChainStep(old(t.f.fs.FatSeq()), old(t.f.chain), t.f.fs.FatSeq(), t.f.chain, t.touched)
    requires t.f.fs.winsect == old(t.f.fs.winsect) || t.f.fs.g.InFat1(t.f.fs.winsect)
    requires InArea(t.h.fs.g, t.h.chain) && t.h.Untaken(Sectors(t.h.fs.g, t.touched))
    ensures t.h.Valid() && Apart(t.h.chain, t.f.chain)
  {
    hide Volume.Valid, Volume.Vol, Fat, Sectors, Holds, ChainStep, File.Valid, File.Untaken;
    t.h.HeldBefore();
    StepApart(old(t.f.fs.FatSeq()), old(t.f.chain), t.f.fs.FatSeq(), t.f.chain, t.touched, t.h.chain);
    forall s | s in t.h.Secs()
      ensures s !in Sectors(t.h.fs.g, t.touched)
    {
      SectorsApart(t.h.fs.g, t.h.chain, t.touched, s);
    }
    t.h.Undisturbed(Sectors(t.h.fs.g, t.touched));
  }

  /** f_open, f_unlink and f_mkdir in a directory keep an open file apart from it. */
  twostate lemma OtherOpenFileKeptByDir(a: Around)
    requires a.dj.fs == a.h.fs && unchanged(a.h) && unchanged(a.h.buf) && old(a.h.Valid())
    requires a.dj.Valid() && Holds(a.h.fs.FatSeq(), a.h.chain) && Apart(a.dj.chain, a.h.chain)
    requires a.h.Attached() && a.dj.OnlyOwnChanged(a.added) && Apart(a.h.chain, a.added)
    requires InArea(a.h.fs.g, a.h.chain) && a.h.Untaken(a.dj.Tbl() + Sectors(a.h.fs.g, a.added))
    ensures a.h.Valid()
  {
    hide Volume.Valid, Volume.Vol, Fat, Sectors, Holds, File.Valid, Table, DirChain, File.Untaken, Volume.ChangedOnly;
    forall s | s in a.h.Secs()
      ensures s !in a.dj.Tbl() + Sectors(a.h.fs.g, a.added)
    {
      SectorBeside(a.h.fs.g, a.h.fs.FatSeq(), a.dj.sclust, a.dj.chain, a.added, a.h.chain, s);
    }
    a.h.Undisturbed(a.dj.Tbl() + Sectors(a.h.fs.g, a.added));
  }

  /** f_sync and f_close on one file keep another open file, unless the entry lies in a sector of it. */
  twostate lemma OtherOpenFileKeptBySync(t: Turn)
    requires t.f.fs == t.h.fs && unchanged(t.h) && unchanged(t.h.buf) && old(t.h.Valid())
    requires t.h.Attached() && t.h.fs.FatSeq() == old(t.h.fs.FatSeq()) && t.f.OnlyOwnChanged()
    requires InArea(t.h.fs.g, t.h.chain) && Apart(t.h.chain, t.f.chain)
    requires t.f.dirSect !in t.h.Secs() && t.h.Untaken(t.f.Secs() + [t.f.dirSect])
    ensures t.h.Valid()
  {
    hide Volume.Valid, Volume.Vol, Fat, Sectors, Holds, File.Valid, File.Untaken, Volume.ChangedOnly;
    t.h.HeldBefore();
    forall s | s in t.h.Secs()
      ensures s !in t.f.Secs() + [t.f.dirSect]
    {
      SectorsApart(t.h.fs.g, t.h.chain, t.f.chain, s);
    }
    t.h.Undisturbed(t.f.Secs() + [t.f.dirSect]);
  }
}
