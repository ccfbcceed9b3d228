/**
  Opening, creating, overwriting and deleting objects by name in a directory,
  and creating directories (f_open, f_unlink, f_mkdir).
  */
module Operations {
  import opened Bytes
  import opened Geometry
  import opened FatTable
  import opened FileSystem
  import opened Chains
  import opened Allocation
  import opened FileData
  import opened Entries
  import opened Directory
  import opened DirTable
  import opened Directories
  import opened Files
  import opened Others

  /** The mode bits of f_open. */
  datatype OpenMode = OpenMode(read: bool, write: bool, createNew: bool, createAlways: bool, openAlways: bool,
                               seekEnd: bool)
  {
    predicate Creating() {
      createNew || createAlways || openAlways
    }
  }

  /** The verdict of f_open on a name that is there. */
  function ExistingVerdict(mode: OpenMode, attr: byte): Result {
    if mode.Creating() then
      if HasBit(attr, AM_RDO) || HasBit(attr, AM_DIR) then Denied
      else if mode.createNew then Exist
      else Ok
    else if HasBit(attr, AM_DIR) then NoFile
    else if mode.write && HasBit(attr, AM_RDO) then Denied
    else Ok
  }

  /**
    The answer of f_open by the mode, by whether the name is there, and then by
    bit 0 (read-only) and bit 4 (directory) of the attribute byte.
    */
  ghost predicate OpenAnswered(mode: OpenMode, name: Name11, slots: seq<Entry32>, res: Result) {
    var creating := mode.createNew || mode.createAlways || mode.openAlways;
    match Directory.Find(slots, name, 0)
    case None => (res == NoFile <==> !creating) && (res == Ok || res == NoFile || res == Denied || res == IntErr)
    case Some(k) =>
      var readOnly, directory := slots[k][11] % 2 == 1, slots[k][11] / 0x10 % 2 == 1;
      && (res == Ok <==> !directory && !mode.createNew && !(readOnly && (creating || mode.write)))
      && (res == Denied <==> (readOnly && (creating || (mode.write && !directory))) || (directory && creating))
      && (res == Exist <==> mode.createNew && !readOnly && !directory)
      && (res == NoFile <==> directory && !creating)
  }

  /** The name is there, and bit 0 of its attribute byte is set. */
  ghost predicate FindsReadOnly(name: Name11, slots: seq<Entry32>) {
    var k := Directory.Find(slots, name, 0);
    k.Some? && slots[k.value][11] % 2 == 1
  }

  /** A read-only file and its slot stay as they are. */
  twostate predicate ReadOnlyKept(dj: Dir)
    requires dj.Valid() && old(dj.Valid())
    reads dj, dj.fs, dj.fs.win
  {
    FindsReadOnly(dj.fn, old(dj.Content())) ==>
      dj.fs.Vol() == old(dj.fs.Vol()) && dj.Content() == old(dj.Content())
  }

  lemma Answered(mode: OpenMode, name: Name11, slots: seq<Entry32>, res: Result)
    requires match Directory.Find(slots, name, 0)
      case None => if mode.Creating() then res == Ok || res == Denied || res == IntErr else res == NoFile
      case Some(k) => res == ExistingVerdict(mode, slots[k][DIR_ATTR])
    ensures OpenAnswered(mode, name, slots, res)
    ensures FindsReadOnly(name, slots) ==>
      Directory.Find(slots, name, 0).Some? && !(res == Ok && mode.createAlways)
  {
    hide Directory.Find;
  }

  /** A directory entry and the file it describes. */
  ghost predicate FileAt(g: Geo, vol: seq<Sector>, e: Entry32, ch: seq<nat>, bytes: seq<byte>) {
    && FileHeld(g, vol, ch, bytes) && FileSize(e) == |bytes|
    && LdClust(g.fsType, e) == (if ch == [] then 0 else ch[0])
  }

  lemma MaskedAttr(b: byte)
    ensures HasBit(b % 0x40, AM_RDO) == HasBit(b, AM_RDO) && HasBit(b % 0x40, AM_DIR) == HasBit(b, AM_DIR)
  {
  }

  /** The end of f_open: a file object for the entry in the window. */
  method Attach(dj: Dir, mode: OpenMode, created: bool, ghost i: nat, ghost ch: seq<nat>, ghost bytes: seq<byte>)
    returns (fp: File)
    requires dj.Valid() && dj.At(i) && dj.fs.winsect == dj.sect
    requires FileAt(dj.fs.g, dj.fs.Vol(), dj.Content()[i], ch, bytes) && Apart(dj.chain, ch)
    ensures fresh(fp) && fresh(fp.buf) && fp.fs == dj.fs && fp.Valid() && fp.Home() && fp.Placed()
    ensures fp.isOpen && fp.err == Ok && fp.canRead == mode.read && fp.canWrite == mode.write
    ensures fp.modified == created && !fp.dirty && fp.fptr == 0
    ensures fp.chain == ch && fp.contents == bytes && fp.dirSect == dj.sect && fp.dirPtr == dj.dir
  {
    hide Volume.Valid, Volume.Vol, Fat, DirChain, Table, Slots, IsChain, Sectors, FileRep, LdClust, FileSize,
         Dir.OnTable, CluIdx;
    dj.fs.WindowShows();
    dj.WindowSlot(i);
    dj.OnSector(i);
    FileBesideTable(dj.fs.g, dj.fs.FatSeq(), dj.sclust, dj.chain, ch, dj.sect);
    var e: Entry32 := dj.fs.win[dj.dir..dj.dir + ENTRY_SIZE];
    fp := new File(dj.fs, mode.read, mode.write, created, dj.sect, dj.dir,
                   LdClust(dj.fs.g.fsType, e), FileSize(e), ch, bytes);
  }

  /** remove_chain on the whole chain of an object, beside its directory. */
  method FreeObject(dj: Dir, cl: nat, ghost ch: seq<nat>) returns (res: Result)
    requires dj.Valid() && cl != 0
    requires Holds(dj.fs.FatSeq(), ch) && InArea(dj.fs.g, ch) && Apart(dj.chain, ch)
    requires cl == (if ch == [] then 0 else ch[0])
    modifies dj.fs`disk, dj.fs`wflag, dj.fs`winsect, dj.fs`freeClst, dj.fs`fsiDirty, dj.fs.win
    ensures res == Ok && dj.Valid() && dj.Content() == old(dj.Content())
    ensures Cut(old(dj.fs.FatSeq()), ch, 0, dj.fs.FatSeq())
    ensures SameOutsideFats(dj.fs.g, old(dj.fs.Vol()), dj.fs.Vol())
    ensures old(CountRight(dj.fs.freeClst, dj.fs.FatSeq())) ==> CountRight(dj.fs.freeClst, dj.fs.FatSeq())
    ensures dj.fs.winsect == old(dj.fs.winsect) || dj.fs.g.InFat1(dj.fs.winsect)
  {
    hide Volume.Valid, Volume.Vol, Fat, DirChain, Table, Slots, IsChain, CountRight, Cut, Unlink, UnlinkOk,
         SameOutsideFats;
    ghost var fat, vol := dj.fs.FatSeq(), dj.fs.Vol();
    StartInRange(dj.fs.g, fat, ch);
    CutAll(fat, ch);
    UnlinkChain(fat, ch);
    res := RemoveChain(dj.fs, cl, 0);
    KeptWhileFreeing(dj.fs.g, vol, dj.fs.Vol(), dj.sclust, dj.chain, ch);
  }

  /** The part of f_open that empties a created or overwritten file: its entry is reset, its clusters are freed. */
  method Overwrite(dj: Dir, tm: dword, ghost i: nat, ghost ch: seq<nat>) returns (res: Result)
    requires dj.Valid() && dj.At(i) && dj.fs.winsect == dj.sect
    requires Holds(dj.fs.FatSeq(), ch) && InArea(dj.fs.g, ch) && Apart(dj.chain, ch)
    requires LdClust(dj.fs.g.fsType, dj.Content()[i]) == (if ch == [] then 0 else ch[0])
    modifies dj.fs`disk, dj.fs`wflag, dj.fs`winsect, dj.fs`freeClst, dj.fs`lastClst, dj.fs`fsiDirty, dj.fs.win
    ensures res == Ok && dj.Valid() && dj.fs.winsect == dj.sect
    ensures Cut(old(dj.fs.FatSeq()), ch, 0, dj.fs.FatSeq())
    ensures dj.Content() == old(dj.Content())[i := ResetEntry(dj.fs.g.fsType, old(dj.Content())[i], tm)]
    ensures OnlyTable(dj.fs.g, old(dj.fs.Vol()), dj.fs.Vol(), dj.Tbl())
    ensures old(CountRight(dj.fs.freeClst, dj.fs.FatSeq())) ==> CountRight(dj.fs.freeClst, dj.fs.FatSeq())
  {
    hide Volume.Valid, Volume.Vol, Fat, DirChain, Table, Slots, IsChain, Sectors, LdClust, ResetEntry, CountRight,
         Cut, CluIdx;
    var fs := dj.fs;
    ghost var fat := fs.FatSeq();
    fs.WindowShows();
    dj.WindowSlot(i);
    dj.OnSector(i);
    var e: Entry32 := fs.win[dj.dir..dj.dir + ENTRY_SIZE];
    var cl := LdClust(fs.g.fsType, e);
    var e' := ResetEntry(fs.g.fsType, e, tm);
    PatchAll(e, e');
    dj.EditSlot(0, e', i);
    res := Ok;
    CutNothing(fat, ch);
    if cl != 0 {
      var sc := fs.winsect;
      res := FreeObject(dj, cl, ch);
      if res == Ok {
        fs.MoveWindow(sc);
        fs.lastClst := cl - 1;
      }
    }
  }

  lemma StartInRange(g: Geo, fat: seq<nat>, ch: seq<nat>)
    requires InArea(g, ch) && ch != []
    ensures g.InRange(ch[0])
  {
  }

  /** A directory is kept while the chain of a file is freed. */
  lemma KeptWhileFreeing(g: Geo, vol: seq<Sector>, vol': seq<Sector>, sclust: nat, dch: seq<nat>, ch: seq<nat>)
    requires IsVolume(g, vol) && IsVolume(g, vol') && SameOutsideFats(g, vol, vol')
    requires InArea(g, dch) && InArea(g, ch) && DirChain(g, Fat(g, vol), sclust, dch) && Apart(dch, ch)
    requires Cut(Fat(g, vol), ch, 0, Fat(g, vol'))
    ensures DirChain(g, Fat(g, vol'), sclust, dch)
    ensures OnVolume(vol, Table(g, sclust, dch)) && OnVolume(vol', Table(g, sclust, dch))
    ensures Slots(vol', Table(g, sclust, dch)) == Slots(vol, Table(g, sclust, dch))
  {
    hide Fat, Table, Slots, Cut, Sectors, IsChain;
    DirHolds(g, Fat(g, vol), sclust, dch);
    CutApart(Fat(g, vol), ch, 0, Fat(g, vol'), dch);
    DirChainKept(g, Fat(g, vol), Fat(g, vol'), sclust, dch);
    TableOnly(g, vol, vol', ch);
    DirectoryKept(g, vol, vol', ch, sclust, dch);
  }

  lemma DirHolds(g: Geo, fat: seq<nat>, sclust: nat, dch: seq<nat>)
    requires DirChain(g, fat, sclust, dch)
    ensures Holds(fat, dch)
  {
  }

  /** The first part of f_open: look the name up, and register it when it is absent and may be created. */
  method FindOrRegister(dj: Dir, mode: OpenMode) returns (res: Result, always: bool, ghost i: nat)
    requires dj.Valid()
    modifies dj.fs`disk, dj.fs`wflag, dj.fs`winsect, dj.fs`freeClst, dj.fs`lastClst, dj.fs`fsiDirty, dj.fs.win
    modifies dj`chain, dj`attr, dj`dptr, dj`clust, dj`sect, dj`dir
    ensures dj.Valid() && (res == Ok ==> dj.At(i) && dj.fs.winsect == dj.sect)
    ensures Extended(old(dj.fs.FatSeq()), old(dj.chain), dj.fs.FatSeq(), dj.chain)
    ensures OnlyTable(dj.fs.g, old(dj.fs.Vol()), dj.fs.Vol(), dj.Tbl())
    ensures match old(Directory.Find(dj.Content(), dj.fn, 0))
      case Some(k) =>
        && dj.chain == old(dj.chain) && dj.Unallocated() && always == mode.createAlways
        && res == ExistingVerdict(mode, old(dj.Content())[k][DIR_ATTR]) && (res == Ok ==> i == k)
      case None =>
        if mode.Creating() then
          && always
          && (res == Ok ==> Registered(old(dj.Content()), dj.fn, i, dj.Content()) && dj.Content()[i] == NewEntry(dj.fn))
          && (res != Ok ==> (res == Denied || res == IntErr) && FirstFree(dj.Content(), 0) == None)
          && (res != Ok ==> dj.chain == old(dj.chain) && dj.Unallocated())
          && (dj.chain == old(dj.chain) || i >= |old(dj.Content())|)
        else res == NoFile && dj.chain == old(dj.chain) && dj.Unallocated()
    ensures old(CountRight(dj.fs.freeClst, dj.fs.FatSeq())) ==> CountRight(dj.fs.freeClst, dj.fs.FatSeq())
    ensures dj.fs.winsect == old(dj.fs.winsect) || dj.Inside()
  {
    hide Volume.Valid, Volume.Vol, Fat, DirChain, Table, Slots, CountRight, Extended, Registered, Dir.At,
         Directory.Find, FirstFree, HasBit;
    always := mode.createAlways;
    dj.GrownSelf();
    res, i := dj.Find();
    if res == Ok {
      MaskedAttr(dj.Content()[i][DIR_ATTR]);
    }
    if mode.Creating() {
      if res != Ok {
        res, i := dj.Register();
        always := true;
      } else if HasBit(dj.attr, AM_RDO) || HasBit(dj.attr, AM_DIR) {
        res := Denied;
      } else if mode.createNew {
        res := Exist;
      }
    } else if res == Ok {
      if HasBit(dj.attr, AM_DIR) {
        res := NoFile;
      } else if mode.write && HasBit(dj.attr, AM_RDO) {
        res := Denied;
      }
    }
  }

  lemma FileOfChain(g: Geo, vol: seq<Sector>, e: Entry32, ch: seq<nat>, bytes: seq<byte>)
    requires FileAt(g, vol, e, ch, bytes)
    ensures Holds(Fat(g, vol), ch) && InArea(g, ch) && LdClust(g.fsType, e) == (if ch == [] then 0 else ch[0])
  {
  }

  lemma EmptyFileAt(g: Geo, vol: seq<Sector>, e: Entry32)
    requires IsVolume(g, vol) && LdClust(g.fsType, e) == 0 && FileSize(e) == 0
    ensures FileAt(g, vol, e, [], [])
  {
  }

  /**
    An existing file has the chain its entry says, apart from the directory; its
    bytes count unless they are dropped.
    */
  ghost predicate Target(dj: Dir, mode: OpenMode, ch: seq<nat>, bytes: seq<byte>)
    requires dj.Valid()
    reads dj, dj.fs, dj.fs.win
  {
    match Directory.Find(dj.Content(), dj.fn, 0)
    case None => true
    case Some(k) =>
      HasBit(dj.Content()[k][DIR_ATTR], AM_DIR)
      || (&& Holds(dj.fs.FatSeq(), ch) && InArea(dj.fs.g, ch) && Apart(dj.chain, ch)
          && LdClust(dj.fs.g.fsType, dj.Content()[k]) == (if ch == [] then 0 else ch[0])
          && (mode.createAlways || FileAt(dj.fs.g, dj.fs.Vol(), dj.Content()[k], ch, bytes)))
  }

  lemma TargetFile(dj: Dir, mode: OpenMode, ch: seq<nat>, bytes: seq<byte>)
    requires dj.Valid() && Target(dj, mode, ch, bytes)
    ensures match Directory.Find(dj.Content(), dj.fn, 0)
      case None => true
      case Some(k) =>
        ExistingVerdict(mode, dj.Content()[k][DIR_ATTR]) == Ok ==>
          && Holds(dj.fs.FatSeq(), ch) && InArea(dj.fs.g, ch) && Apart(dj.chain, ch)
          && LdClust(dj.fs.g.fsType, dj.Content()[k]) == (if ch == [] then 0 else ch[0])
          && (mode.createAlways || FileAt(dj.fs.g, dj.fs.Vol(), dj.Content()[k], ch, bytes))
  {
    hide Dir.Valid, Volume.Vol, Fat, Directory.Find, LdClust, FileAt;
  }

  /** The file object of f_open, at the end of the file when appending. */
  method OpenAt(dj: Dir, mode: OpenMode, created: bool, ghost i: nat, ghost ch: seq<nat>, ghost bytes: seq<byte>)
    returns (fp: File)
    requires dj.Valid() && dj.At(i) && dj.fs.winsect == dj.sect
    requires FileAt(dj.fs.g, dj.fs.Vol(), dj.Content()[i], ch, bytes) && Apart(dj.chain, ch)
    modifies dj.fs`disk, dj.fs`wflag, dj.fs`winsect, dj.fs.win
    ensures dj.Valid() && dj.Unallocated() && OpenFile(dj, mode, i, fp)
    ensures fresh(fp) && fresh(fp.buf) && fp.modified == created && fp.fptr == (if mode.seekEnd then |bytes| else 0)
    ensures fp.chain == ch && fp.contents == bytes
    ensures dj.fs.winsect == old(dj.fs.winsect) || dj.fs.g.InFat1(dj.fs.winsect)
  {
    hide Volume.Valid, Volume.Vol, Fat, DirChain, Table, Slots, IsChain, Sectors, FileRep, LdClust, FileSize,
         Dir.OnTable, CluIdx, FileHeld, Geo.Valid;
    fp := Attach(dj, mode, created, i, ch, bytes);
    dj.OnSector(i);
    if mode.seekEnd && fp.objsize > 0 {
      fp.SeekEnd();
    }
  }

  /** A file object made for slot i. */
  ghost predicate OpenFile(dj: Dir, mode: OpenMode, i: nat, fp: File)
    requires dj.Valid()
    reads dj, dj.fs, dj.fs.win, fp, fp.buf, fp.fs, fp.fs.win
    ensures OpenFile(dj, mode, i, fp) ==> i < |dj.Content()|
  {
    && fp.fs == dj.fs && fp.Valid() && fp.Home() && fp.Placed()
    && fp.isOpen && fp.err == Ok && fp.canRead == mode.read && fp.canWrite == mode.write && !fp.dirty
    && dj.At(i) && fp.dirSect == dj.sect && fp.dirPtr == dj.dir && Apart(dj.chain, fp.chain)
  }

  /** What f_open has done, by whether the name was found, to the slots and to the file. */
  ghost predicate Opened(mode: OpenMode, t: FatType, tm: dword, name: Name11, slots: seq<Entry32>, slots': seq<Entry32>,
                         i: nat,
                         bytes: seq<byte>, contents: seq<byte>, modified: bool, fptr: nat)
    requires i < |slots'|
  {
    match Directory.Find(slots, name, 0)
    case Some(k) =>
      && i == k && ExistingVerdict(mode, slots[k][DIR_ATTR]) == Ok
      && (if mode.createAlways then
            slots' == slots[k := ResetEntry(t, slots[k], tm)] && contents == [] && modified && fptr == 0
          else
            slots' == slots && contents == bytes && !modified && fptr == if mode.seekEnd then |bytes| else 0)
    case None =>
      && mode.Creating() && contents == [] && modified && fptr == 0
      && slots'[i] == ResetEntry(t, NewEntry(name), tm) && Registered(slots, name, i, slots'[i := NewEntry(name)])
  }

  /** When f_open opens nothing, and why: the directory is left as it is. */
  ghost predicate NotOpened(mode: OpenMode, name: Name11, slots: seq<Entry32>, slots': seq<Entry32>, res: Result)
  {
    match Directory.Find(slots, name, 0)
    case Some(k) => res == ExistingVerdict(mode, slots[k][DIR_ATTR]) && slots' == slots
    case None =>
      && slots' == slots
      && if mode.Creating() then (res == Denied || res == IntErr) && FirstFree(slots, 0) == None else res == NoFile
  }

  /** f_open on the last segment of a path, in the directory where it is looked up. */
  method Open(dj: Dir, mode: OpenMode, tm: dword, ghost ch: seq<nat>, ghost bytes: seq<byte>)
    returns (res: Result, fp: File?, ghost i: nat)
    requires dj.Valid() && Target(dj, mode, ch, bytes)
    modifies dj.fs`disk, dj.fs`wflag, dj.fs`winsect, dj.fs`freeClst, dj.fs`lastClst, dj.fs`fsiDirty, dj.fs.win
    modifies dj`chain, dj`attr, dj`dptr, dj`clust, dj`sect, dj`dir
    ensures dj.Valid() && (res == Ok <==> fp != null)
    ensures OnlyTable(dj.fs.g, old(dj.fs.Vol()), dj.fs.Vol(), dj.Tbl())
    ensures fp != null ==> fresh(fp) && fresh(fp.buf) && OpenFile(dj, mode, i, fp)
    ensures fp != null ==>
      Opened(mode, dj.fs.g.fsType, tm, dj.fn, old(dj.Content()), dj.Content(), i, bytes, fp.contents, fp.modified,
             fp.fptr)
    ensures fp != null ==> fp.chain == if fp.modified then [] else ch
    ensures fp == null ==> NotOpened(mode, dj.fn, old(dj.Content()), dj.Content(), res)
    ensures fp == null ==> dj.chain == old(dj.chain) && dj.Unallocated()
    ensures match old(Directory.Find(dj.Content(), dj.fn, 0))
      case Some(k) => dj.chain == old(dj.chain) &&
        if res == Ok && mode.createAlways then Cut(old(dj.fs.FatSeq()), ch, 0, dj.fs.FatSeq())
          else dj.fs.Vol() == old(dj.fs.Vol())
      case None =>
        && Extended(old(dj.fs.FatSeq()), old(dj.chain), dj.fs.FatSeq(), dj.chain)
        && (dj.chain == old(dj.chain) || i >= |old(dj.Content())|)
    ensures old(CountRight(dj.fs.freeClst, dj.fs.FatSeq())) ==> CountRight(dj.fs.freeClst, dj.fs.FatSeq())
    ensures dj.fs.winsect == old(dj.fs.winsect) || dj.Inside()
    ensures OpenAnswered(mode, dj.fn, old(dj.Content()), res)
    ensures ReadOnlyKept(dj)
  {
    hide Volume.Valid, Volume.Vol, Fat, DirChain, Table, Slots, CountRight, Extended, Registered, Directory.Find,
         FirstFree, OpenAnswered, FindsReadOnly, ExistingVerdict, Target, FileAt, Geo.Valid, CluIdx;
    hide HasBit, IsChain, Cut, LdClust, ResetEntry, FileRep, Sectors, NewEntry, Dir.OnTable, OpenFile;
    ghost var target := Directory.Find(dj.Content(), dj.fn, 0);
    TargetFile(dj, mode, ch, bytes);
    ghost var c, b := if target.Some? then ch else [], if target.Some? then bytes else [];
    fp := null;
    var always;
    res, always, i := FindOrRegister(dj, mode);
    Answered(mode, dj.fn, old(dj.Content()), res);
    if res != Ok {
      return;
    }
    if always {
      NewEntryReads(dj.fs.g.fsType, dj.fn);
      ghost var slots := dj.Content();
      ResetEntryReads(dj.fs.g.fsType, slots[i], tm);
      ghost var fat := dj.fs.FatSeq();
      res := Overwrite(dj, tm, i, c);
      CutEmpty(fat, c, dj.fs.FatSeq());
      EmptyFileAt(dj.fs.g, dj.fs.Vol(), dj.Content()[i]);
      assert dj.Content()[i := slots[i]] == slots;
      c, b := [], [];
    }
    fp := OpenAt(dj, mode, always, i, c, b);
  }

  lemma CutEmpty(fat: seq<nat>, ch: seq<nat>, fat': seq<nat>)
    requires Cut(fat, ch, 0, fat')
    ensures ch == [] ==> fat' == fat
  {
  }

  /** Whatever f_open did to the slots, the name is found at slot i now and every other lookup keeps its answer. */
  lemma OpenedInserts(mode: OpenMode, t: FatType, tm: dword, name: Name11, slots: seq<Entry32>, slots': seq<Entry32>,
                      i: nat,
                      bytes: seq<byte>, contents: seq<byte>, modified: bool, fptr: nat)
    requires i < |slots'| && Opened(mode, t, tm, name, slots, slots', i, bytes, contents, modified, fptr)
    requires WellFormed(slots) && Proper(name)
    ensures Inserted(slots, name, i, slots')
    ensures modified ==> slots'[i][DIR_ATTR] == AM_ARC
  {
    hide WellFormed, Registered, ResetEntry, Inserted, NewEntry;
    match Directory.Find(slots, name, 0)
    case Some(k) =>
      ResetEntryReads(t, slots[k], tm);
      RefreshKeeps(slots, name, k, slots'[k]);
      assert slots' == slots[k := slots'[k]];
    case None =>
      NewEntryReads(t, name);
      ResetEntryReads(t, NewEntry(name), tm);
      var mid := slots'[i := NewEntry(name)];
      RegisteredInserts(slots, name, i, mid);
      InsertedFinds(slots, name, i, mid);
      RefreshKeeps(mid, name, i, slots'[i]);
      assert slots' == mid[i := slots'[i]];
      InsertedTwice(slots, mid, slots', name, i);
  }

  // ---- deleting

  /** A sub-directory without visible entries: only this kind is deleted. */
  ghost predicate EmptyDirectory(g: Geo, vol: seq<Sector>, ch: seq<nat>)
    requires InArea(g, ch) && OnVolume(vol, Sectors(g, ch))
  {
    FirstVisible(Slots(vol, Sectors(g, ch)), 0) == None
  }

  /** The object an entry describes: its chain, apart from the directory; a sub-directory has one. */
  ghost predicate ObjectAt(dj: Dir, e: Entry32, ch: seq<nat>)
    requires dj.Valid()
    reads dj, dj.fs, dj.fs.win
    ensures ObjectAt(dj, e, ch) ==> InArea(dj.fs.g, ch) && OnVolume(dj.fs.Vol(), Sectors(dj.fs.g, ch))
  {
    && Holds(dj.fs.FatSeq(), ch) && InArea(dj.fs.g, ch) && Apart(dj.chain, ch)
    && LdClust(dj.fs.g.fsType, e) == (if ch == [] then 0 else ch[0])
    && (HasBit(e[DIR_ATTR], AM_DIR) ==> ch != [])
    && (SectorsOnVolume(dj.fs.g, dj.fs.Vol(), ch); true)
  }

  lemma SectorsOnVolume(g: Geo, vol: seq<Sector>, ch: seq<nat>)
    requires IsVolume(g, vol) && InArea(g, ch)
    ensures OnVolume(vol, Sectors(g, ch))
  {
    hide Sectors;
    forall k | 0 <= k < |Sectors(g, ch)|
      ensures Sectors(g, ch)[k] < |vol|
    {
      SectorsInData(g, ch, Sectors(g, ch)[k]);
    }
  }

  /** The emptiness test of f_unlink on a sub-directory. */
  method CheckEmpty(fs: Volume, dclst: nat, ghost ch: seq<nat>) returns (res: Result)
    requires fs.Valid() && IsChain(fs.FatSeq(), ch) && InArea(fs.g, ch) && dclst == ch[0]
    requires OnVolume(fs.Vol(), Sectors(fs.g, ch))
    modifies fs`disk, fs`wflag, fs`winsect, fs`freeClst, fs`lastClst, fs`fsiDirty, fs.win
    ensures fs.Valid() && fs.Vol() == old(fs.Vol()) && fs.freeClst == old(fs.freeClst)
    ensures res == if EmptyDirectory(fs.g, fs.Vol(), ch) then Ok else Denied
    ensures fs.winsect == old(fs.winsect) || fs.g.InFat1(fs.winsect) || fs.winsect in Sectors(fs.g, ch)
  {
    hide Volume.Valid, Volume.Vol, Fat, Slots, Sectors, IsChain, Dir.At, FirstVisible;
    assert ch != [] by {
      ChainNotEmpty(fs.FatSeq(), ch);
    }
    var sdj := new Dir(fs, dclst, seq(11, _ => 0x20), ch);
    sdj.TblFacts();
    res := sdj.Sdi(0);
    if res == Ok {
      ghost var i;
      res, i := sdj.ReadItem(0);
      if res == Ok {
        res := Denied;
      } else if res == NoFile {
        res := Ok;
      }
    }
  }

  lemma ChainNotEmpty(fat: seq<nat>, ch: seq<nat>)
    requires IsChain(fat, ch)
    ensures ch != []
  {
  }

  /** The verdict of f_unlink on an entry that is there. */
  ghost function UnlinkVerdict(g: Geo, vol: seq<Sector>, e: Entry32, ch: seq<nat>): Result
    requires InArea(g, ch) && OnVolume(vol, Sectors(g, ch))
  {
    if HasBit(e[DIR_ATTR], AM_RDO) then Denied
    else if HasBit(e[DIR_ATTR], AM_DIR) && !EmptyDirectory(g, vol, ch) then Denied
    else Ok
  }

  /** The answer of f_unlink by the attribute byte and, for a directory, the bytes of its slots. */
  ghost predicate UnlinkAnswered(a: byte, slots: seq<Entry32>, res: Result) {
    && (res == Ok || res == Denied)
    && (a % 2 == 1 ==> res == Denied)
    && (a % 2 == 0 && a / 0x10 % 2 == 0 ==> res == Ok)
    && (a % 2 == 0 && a / 0x10 % 2 == 1 ==> (res == Ok <==> OnlyHidden(slots)))
  }

  lemma VerdictByBytes(g: Geo, vol: seq<Sector>, e: Entry32, ch: seq<nat>)
    requires InArea(g, ch) && OnVolume(vol, Sectors(g, ch))
    ensures UnlinkAnswered(e[11], Slots(vol, Sectors(g, ch)), UnlinkVerdict(g, vol, e, ch))
  {
    hide Sectors, Slots, OnlyHidden, FirstVisible;
    NothingVisible(Slots(vol, Sectors(g, ch)));
  }

  /** The tests of f_unlink; the directory object is left on the entry. */
  method MayUnlink(dj: Dir, ghost i: nat, ghost ch: seq<nat>) returns (res: Result, dclst: nat)
    requires dj.Valid() && dj.At(i) && dj.fs.winsect == dj.sect && ObjectAt(dj, dj.Content()[i], ch)
    requires dj.attr == dj.Content()[i][DIR_ATTR] % 0x40
    modifies dj.fs`disk, dj.fs`wflag, dj.fs`winsect, dj.fs`freeClst, dj.fs`lastClst, dj.fs`fsiDirty, dj.fs.win
    ensures dj.Valid() && dj.fs.Vol() == old(dj.fs.Vol()) && dj.fs.freeClst == old(dj.fs.freeClst)
    ensures res == UnlinkVerdict(dj.fs.g, dj.fs.Vol(), dj.Content()[i], ch)
    ensures res == Ok ==> dclst == if ch == [] then 0 else ch[0]
    ensures || dj.fs.winsect == old(dj.fs.winsect) || dj.fs.g.InFat1(dj.fs.winsect)
            || dj.fs.winsect in Sectors(dj.fs.g, ch)
  {
    hide Volume.Valid, Volume.Vol, Fat, DirChain, Table, Slots, Sectors, IsChain, LdClust, EmptyDirectory,
         Dir.OnTable, HasBit;
    dj.fs.WindowShows();
    dj.WindowSlot(i);
    var e: Entry32 := dj.fs.win[dj.dir..dj.dir + ENTRY_SIZE];
    MaskedAttr(e[DIR_ATTR]);
    dclst := LdClust(dj.fs.g.fsType, e);
    res := Ok;
    if HasBit(dj.attr, AM_RDO) {
      res := Denied;
    } else if HasBit(dj.attr, AM_DIR) {
      res := CheckEmpty(dj.fs, dclst, ch);
    }
  }

  /** f_unlink on the last segment of a path. */
  method UnlinkObject(dj: Dir, ghost ch: seq<nat>) returns (res: Result)
    requires dj.Valid()
    requires var k := Directory.Find(dj.Content(), dj.fn, 0); k.Some? ==> ObjectAt(dj, dj.Content()[k.value], ch)
    modifies dj.fs`disk, dj.fs`wflag, dj.fs`winsect, dj.fs`freeClst, dj.fs`lastClst, dj.fs`fsiDirty, dj.fs.win
    modifies dj`chain, dj`attr, dj`dptr, dj`clust, dj`sect, dj`dir
    ensures dj.Valid() && dj.chain == old(dj.chain)
    ensures match old(Directory.Find(dj.Content(), dj.fn, 0))
      case None => res == NoFile && (dj.fs.winsect == old(dj.fs.winsect) || dj.Inside())
      case Some(k) =>
        && res == old(UnlinkVerdict(dj.fs.g, dj.fs.Vol(), dj.Content()[k], ch))
        && UnlinkAnswered(old(dj.Content())[k][11], old(Slots(dj.fs.Vol(), Sectors(dj.fs.g, ch))), res)
        && (res == Ok ==> dj.Content() == old(dj.Content())[k := Deleted(old(dj.Content())[k])])
        && (dj.fs.winsect == old(dj.fs.winsect) || dj.Inside() || dj.fs.winsect == dj.fs.g.volbase + 1
            || dj.fs.winsect in Sectors(dj.fs.g, ch))
    ensures res == Ok ==> Cut(old(dj.fs.FatSeq()), ch, 0, dj.fs.FatSeq()) && !dj.fs.wflag && dj.fs.disk == dj.fs.Vol()
    ensures res != Ok ==> dj.fs.Vol() == old(dj.fs.Vol()) && dj.Content() == old(dj.Content())
    ensures old(CountRight(dj.fs.freeClst, dj.fs.FatSeq())) ==> CountRight(dj.fs.freeClst, dj.fs.FatSeq())
    ensures InArea(dj.fs.g, []) && OnlyBeside(dj.fs.g, old(dj.fs.Vol()), dj.fs.Vol(), dj.Tbl(), [])
  {
    hide Volume.Valid, Volume.Vol, Fat, DirChain, Table, Slots, Sectors, IsChain, LdClust, UnlinkVerdict, Cut,
         CountRight, Deleted, Dir.OnTable;
    hide Directory.Find, UnlinkAnswered;
    ghost var i;
    res, i := dj.Find();
    if res != Ok {
      return;
    }
    VerdictByBytes(dj.fs.g, dj.fs.Vol(), dj.Content()[i], ch);
    var dclst;
    res, dclst := MayUnlink(dj, i, ch);
    if res != Ok {
      return;
    }
    ghost var fat := dj.fs.FatSeq();
    dj.Remove(i);
    CutNothing(fat, ch);
    if dclst != 0 {
      res := FreeObject(dj, dclst, ch);
    }
    if res == Ok {
      dj.SyncVolume();
    }
  }
}
