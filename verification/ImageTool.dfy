/**
  Storing files in a volume image and reading them back after a fresh mount
  (the image tool's InsertFile and InsertFileToImage), and what any run of calls
  on open files leaves on the device.
  */
module ImageTool {
  import opened Bytes
  import opened Geometry
  import opened FatTable
  import opened FileSystem
  import opened Chains
  import opened Allocation
  import opened FileData
  import opened Entries
  import opened Directory
  import opened DirTable
  import opened Directories
  import opened Files
  import opened Others
  import opened Operations
  import opened Sessions
  import opened Mount

  /** FA_CREATE_ALWAYS | FA_WRITE */
  const CREATE := OpenMode(false, true, false, true, false, false)
  /** FA_READ */
  const READ := OpenMode(true, false, false, false, false, false)

  // ---- InsertFile

  /** A plain file with these bytes has slot i, under a name. */
  ghost predicate Held(g: Geo, vol: seq<Sector>, slots: seq<Entry32>, owners: map<nat, seq<nat>>, name: Name11, i: nat,
                       source: seq<byte>) {
    && i < |slots| && PlainEntry(slots[i], name) && Owner(i) in owners
    && FileAt(g, vol, slots[i], owners[Owner(i)], source)
  }

  ghost predicate HeldAs(t: Session, name: Name11, i: nat, source: seq<byte>)
    requires t.dj.Valid()
    reads t.dj, t.dj.fs, t.dj.fs.win
  {
    Held(t.dj.fs.g, t.dj.fs.Vol(), t.dj.Content(), t.owners, name, i, source)
  }

  /** What InsertFile leaves on the device. */
  ghost predicate Stored(t: Session, i: nat, source: seq<byte>)
    requires t.dj.Valid()
    reads t.dj, t.dj.fs, t.dj.fs.win
  {
    !t.dj.fs.wflag && t.dj.fs.disk == t.dj.fs.Vol() && HeldAs(t, t.dj.fn, i, source)
  }

  /** Of the first pos bytes of the source a part from the start is stored: all of it, or nothing can follow. */
  ghost predicate PartStored(was: Sight, source: seq<byte>, pos: nat, stuck: bool)
    requires pos <= |source|
  {
    was.at == |was.bytes| <= pos && was.bytes == source[..|was.bytes|] && (|was.bytes| < pos ==> stuck)
  }

  ghost predicate StoredUpTo(fp: File, source: seq<byte>, pos: nat)
    requires fp.Valid() && pos <= |source|
    reads fp, fp.buf, fp.fs, fp.fs.win
  {
    fp.modified && PartStored(SightOf(fp), source, pos, fp.Stuck())
  }

  /** A file that can be written on a sound volume. */
  ghost predicate Able(fp: File)
    requires fp.fs.Attached()
    reads fp, fp.fs, fp.fs.win
  {
    fp.err == Ok && fp.canWrite && fp.Sound()
  }

  /** The bytes of n that fit into a file of at most c clusters. */
  ghost function Fitting(fp: File, n: nat, c: nat): nat {
    Least(Least(n, 0xFFFF_FFFF), Bound(fp.fs.g.csize, c))
  }

  /** A file with no more clusters than it needs. */
  ghost predicate Packed(fp: File)
    reads fp
  {
    fp.fs.g.csize > 0 && |fp.chain| == ClustersFor(fp.fs.g.csize, |fp.contents|)
  }

  lemma StoredMeans(fp: File, source: seq<byte>, pos: nat)
    requires fp.Valid() && pos <= |source|
    ensures StoredUpTo(fp, source, pos) <==> fp.modified && PartStored(SightOf(fp), source, pos, fp.Stuck())
    ensures SightOf(fp).bytes == fp.contents && SightOf(fp).at == fp.fptr
  {
  }

  function PieceSize(rest: nat): (n: nat)
    ensures n <= rest && n <= 512 && (rest > 0 ==> n > 0)
  {
    if rest < SECTOR_SIZE then rest else SECTOR_SIZE
  }

  /** Writing at the end of a file without spare clusters leaves none. */
  lemma PackedOn(csize: nat, p: nat, end: nat, free: nat)
    requires csize > 0 && p <= end
    ensures var c := ClustersFor(csize, p);
      ClustersHad(c, ClustersFor(csize, end), free) == ClustersFor(csize, Least(end, Bound(csize, c + free)))
  {
    hide ClustersFor, Bound;
    var c := ClustersFor(csize, p);
    ClustersMono(csize, p, end);
    ClustersFit(csize, end, c + free);
    ClustersFit(csize, Bound(csize, c + free), c + free);
    if c + free > 0 {
      ClustersFit(csize, Bound(csize, c + free), c + free - 1);
      BoundMono(csize, c + free - 1, c + free);
    }
  }

  lemma AbleMeans(fp: File)
    requires fp.fs.Attached()
    ensures Able(fp) <==> SightOf(fp).err == Ok && SightOf(fp).writing && StoreOf(fp.fs).Sound()
    ensures fp.Reserve() == SightOf(fp).clusters + StoreOf(fp.fs).free && fp.fptr == SightOf(fp).at
    ensures Packed(fp) <==> PackedSight(fp.fs.g.csize, SightOf(fp))
    ensures SightOf(fp).bytes == fp.contents
  {
    hide CountRight, Damaged, FreeCount, ClustersFor;
  }

  ghost predicate PackedSight(csize: nat, x: Sight) {
    csize > 0 && x.clusters == ClustersFor(csize, |x.bytes|)
  }

  /** f_write on a sound volume. */
  lemma WritePays(csize: nat, data: Piece, x: Sight, r: Answer, y: Sight, a: Store, b: Store)
    requires Costs(csize, WriteCall(data), x, r, y, a, b) && Follows(WriteCall(data), x, r, y)
    requires x.err == Ok && x.writing && a.Sound()
    ensures b.Sound() && y.err == Ok && y.writing && y.clusters + b.free == x.clusters + a.free
    ensures y.at == Least(x.at + WriteLength(x.at, |data|), Bound(csize, x.clusters + a.free))
    ensures PackedSight(csize, x) && x.at == |x.bytes| ==> PackedSight(csize, y)
  {
    hide ClustersFor, Bound, WriteLength, Least, Splice, ClustersHad;
    if PackedSight(csize, x) && x.at == |x.bytes| {
      LengthAdds(x.at, |data|);
      PackedOn(csize, x.at, x.at + WriteLength(x.at, |data|), a.free);
    }
  }

  lemma StaysFlagged(fp: File)
    ensures SightOf(fp).flagged == fp.modified
  {
  }

  lemma LengthAdds(at: dword, n: nat)
    ensures at <= at + WriteLength(at, n)
  {
  }

  /** f_write on the only open file. */
  method WriteAlone(ghost s: Session, fp: File, data: Piece) returns (r: Answer)
    requires s.Valid() && s.files.Keys == {fp} && fp.Valid() && fp.modified
    modifies fp.fs`disk, fp.fs`wflag, fp.fs`winsect, fp.fs`freeClst, fp.fs`lastClst, fp.fs`fsiDirty, fp.fs.win
    modifies fp.buf, fp`sclust, fp`clust, fp`chain, fp`dirty, fp`err, fp`sect, fp`fptr, fp`objsize, fp`contents
    modifies fp`modified
    ensures s.After(fp).Valid() && s.dj.Content() == old(s.dj.Content()) && fp.Valid() && fp.modified
    ensures s.Spares(s.dj.fs.g, old(s.dj.fs.Vol()), s.dj.fs.Vol())
    ensures SameBoot(s.dj.fs.g, old(s.dj.fs.Vol()), s.dj.fs.Vol())
    ensures Follows(WriteCall(data), old(SightOf(fp)), r, SightOf(fp)) && (old(fp.Barren()) ==> fp.Barren())
    ensures (r.count < |data| ==> fp.Stuck()) && (old(fp.Stuck()) ==> r.count == 0 && fp.Stuck())
    ensures old(Able(fp)) ==>
      && Able(fp) && fp.Reserve() == old(fp.Reserve())
      && fp.fptr == Least(old(fp.fptr + WriteLength(fp.fptr, |data|)), Bound(fp.fs.g.csize, fp.Reserve()))
      && (old(Packed(fp) && fp.fptr == |fp.contents|) ==> Packed(fp))
  {
    hide Volume.Valid, Volume.Vol, Volume.FatSeq, Dir.Valid, File.Valid, File.StaysHome, File.Home, File.Stuck,
         Dir.Content, Follows, SameBoot, Bound, ClustersFor, Costs, Able, Packed, PackedSight, SightOf, StoreOf,
         File.Reserve, File.FlaggedBy, File.AbortedBy, Least, WriteLength, Session.UnhitByCall, File.Barren;
    hide Session.Valid, Session.Spares, Session.OthersHome, Session.After, Session.Calm, Session.Ordered,
         Session.Distinct, Session.Closed, Slotted, Owned, WellFormed, IsFree, HasBit, Holds, Apart;
    Alone(s, fp);
    s.Separate(fp);
    AbleMeans(fp);
    StaysFlagged(fp);
    ghost var x, a := SightOf(fp), StoreOf(fp.fs);
    r := CallBeside(s, fp, WriteCall(data));
    AbleMeans(fp);
    StaysFlagged(fp);
    if x.err == Ok && x.writing && a.Sound() {
      WritePays(fp.fs.g.csize, data, x, r, SightOf(fp), a, StoreOf(fp.fs));
    }
  }

  /** One round of the loop of InsertFile: a piece of up to 512 bytes. */
  method WritePiece(ghost s: Session, fp: File, source: seq<byte>, pos: nat) returns (n: nat, bw: nat)
    requires s.Valid() && s.files.Keys == {fp} && fp.Valid() && pos < |source| && StoredUpTo(fp, source, pos)
    modifies fp.fs`disk, fp.fs`wflag, fp.fs`winsect, fp.fs`freeClst, fp.fs`lastClst, fp.fs`fsiDirty, fp.fs.win
    modifies fp.buf, fp`sclust, fp`clust, fp`chain, fp`dirty, fp`err, fp`sect, fp`fptr, fp`objsize, fp`contents
    modifies fp`modified
    ensures s.After(fp).Valid() && s.dj.Content() == old(s.dj.Content())
    ensures s.Spares(s.dj.fs.g, old(s.dj.fs.Vol()), s.dj.fs.Vol())
    ensures SameBoot(s.dj.fs.g, old(s.dj.fs.Vol()), s.dj.fs.Vol())
    ensures 0 < n && pos + n <= |source| && fp.Valid() && StoredUpTo(fp, source, pos + n)
    ensures |fp.contents| == old(|fp.contents|) + bw && (old(fp.Barren()) ==> fp.Barren())
    ensures old(Able(fp)) ==>
      && Able(fp) && fp.Reserve() == old(fp.Reserve()) && (old(Packed(fp)) ==> Packed(fp))
      && |fp.contents| == Least(old(|fp.contents| + WriteLength(fp.fptr, n)), Bound(fp.fs.g.csize, fp.Reserve()))
  {
    hide *;
    n := PieceSize(|source| - pos);
    StoredMeans(fp, source, pos);
    AtEnd(fp, source, pos);
    ghost var was, stuck := SightOf(fp), fp.Stuck();
    var r := WriteAlone(s, fp, source[pos..pos + n]);
    bw := r.count;
    PieceStored(source, pos, n, was, r, SightOf(fp), stuck, fp.Stuck());
    StoredMeans(fp, source, pos + n);
  }

  lemma Alone(s: Session, fp: File)
    requires s.Valid() && s.files.Keys == {fp}
    ensures fp in s.files && fp.fs == s.dj.fs && s.OthersHome(fp) && s.Calm(true)
  {
    hide Session.Valid, Slotted;
    s.CalmOthers(true, fp);
  }

  /** The loop of InsertFile, counting what was asked for and what was written in 32 bits. */
  method WriteAll(ghost s: Session, fp: File, source: seq<byte>) returns (same: bool, ghost t: Session)
    requires s.Valid() && s.files.Keys == {fp} && fp.Valid() && fp.modified && fp.contents == [] && fp.fptr == 0
    modifies fp.fs`disk, fp.fs`wflag, fp.fs`winsect, fp.fs`freeClst, fp.fs`lastClst, fp.fs`fsiDirty, fp.fs.win
    modifies fp.buf, fp`sclust, fp`clust, fp`chain, fp`dirty, fp`err, fp`sect, fp`fptr, fp`objsize, fp`contents
    modifies fp`modified
    ensures t.Valid() && s.Continues(t) && s.dj.Content() == old(s.dj.Content())
    ensures s.Spares(s.dj.fs.g, old(s.dj.fs.Vol()), s.dj.fs.Vol())
    ensures SameBoot(s.dj.fs.g, old(s.dj.fs.Vol()), s.dj.fs.Vol())
    ensures fp.Valid() && StoredUpTo(fp, source, |source|)
    ensures same == (Wrap32(|source|) == Wrap32(|fp.contents|))
    ensures old(fp.Barren()) ==> fp.Barren()
    ensures old(Able(fp)) ==>
      Able(fp) && fp.Reserve() == old(fp.Reserve()) && |fp.contents| == Fitting(fp, |source|, fp.Reserve())
    ensures old(Able(fp) && fp.chain == []) ==> Packed(fp)
  {
    hide *;
    Alone(s, fp);
    s.InOrder();
    EmptyIsPacked(fp);
    ghost var g, vol := s.dj.fs.g, s.dj.fs.Vol();
    RunStart(s, []);
    Wrap32Sum(0, 0);
    NothingStored(fp, source, fp.Reserve());
    var asked, written, pos := 0, 0, 0;
    t := s;
    while pos < |source|
      invariant pos <= |source| && t.Valid() && s.Continues(t) && t.dj == s.dj && t.files == s.files
      invariant s.dj.Content() == old(s.dj.Content())
      invariant s.Spares(g, vol, s.dj.fs.Vol()) && SameBoot(g, vol, s.dj.fs.Vol())
      invariant fp.Valid() && StoredUpTo(fp, source, pos) && (old(fp.Barren()) ==> fp.Barren())
      invariant old(Able(fp)) ==>
        Able(fp) && fp.Reserve() == old(fp.Reserve()) && |fp.contents| == Fitting(fp, pos, old(fp.Reserve()))
      invariant old(Able(fp) && fp.chain == []) ==> Packed(fp)
      invariant asked == Wrap32(pos) && written == Wrap32(|fp.contents|)
    {
      ghost var sofar, vol1, u := |fp.contents|, s.dj.fs.Vol(), t;
      t.Separate(fp);
      AtEnd(fp, source, pos);
      var n, bw := WritePiece(t, fp, source, pos);
      t := t.After(fp);
      u.AfterContinues(s, fp);
      GoesOn(s, t);
      s.SparesTrans(u, g, vol, vol1, s.dj.fs.Vol());
      SameBootTrans(g, vol, vol1, s.dj.fs.Vol());
      Wrap32Sum(pos, n);
      Wrap32Sum(sofar, bw);
      FittingNext(fp, pos, n, old(fp.Reserve()));
      asked, written, pos := Wrap32(asked + n), Wrap32(written + bw), pos + n;
    }
    same := asked == written;
  }

  lemma GoesOn(s: Session, t: Session)
    requires s.Continues(t)
    ensures t.dj == s.dj && t.files == s.files
  {
  }

  lemma EmptyIsPacked(fp: File)
    requires fp.Valid() && fp.contents == []
    ensures Able(fp) && fp.chain == [] ==> Packed(fp)
  {
    hide File.Core;
  }

  lemma AtEnd(fp: File, source: seq<byte>, pos: nat)
    requires fp.Valid() && pos <= |source| && StoredUpTo(fp, source, pos)
    ensures fp.fptr == |fp.contents|
  {
  }

  /** One piece more fits by what is left. */
  lemma FittingNext(fp: File, pos: nat, n: nat, c: nat)
    ensures var l := Fitting(fp, pos, c);
      l < 0x1_0000_0000 && Least(l + WriteLength(l, n), Bound(fp.fs.g.csize, c)) == Fitting(fp, pos + n, c)
  {
    hide Bound;
  }

  /** f_open with CREATE leaves an empty file. */
  lemma CreatedEmpty(t: FatType, tm: dword, name: Name11, slots: seq<Entry32>, slots': seq<Entry32>, i: nat,
                     bytes: seq<byte>, contents: seq<byte>, modified: bool, fptr: nat)
    requires i < |slots'| && Opened(CREATE, t, tm, name, slots, slots', i, bytes, contents, modified, fptr)
    ensures contents == [] && modified && fptr == 0
  {
    hide Registered, ResetEntry, NewEntry, Directory.Find;
  }

  /** Closed objects of s are those of t. */
  ghost predicate Outlives(s: Session, t: Session) {
    forall k :: s.Closed(k) ==> k in t.owners && t.owners[k] == s.owners[k]
  }

  lemma Emptied(s: Session, t: Session, fp: File)
    requires s.Continues(t) && s.files.Keys == {fp}
    ensures Outlives(s, t.Without(fp)) && t.Without(fp).files == map[] && t.Without(fp).owners == t.owners
    ensures t.Without(fp).dj == s.dj
  {
  }

  lemma BarrenMeans(fp: File)
    requires fp.fs.Attached()
    ensures fp.Barren() ==> fp.contents == []
  {
  }

  lemma PartMeans(was: Sight, source: seq<byte>, pos: nat, stuck: bool)
    requires pos <= |source| && PartStored(was, source, pos, stuck)
    ensures was.at == |was.bytes| <= pos && was.bytes == source[..|was.bytes|]
  {
  }

  /** The rest of InsertFile: the source is written into the empty file, and the file is closed. */
  method FillAndClose(ghost s: Session, fp: File, source: seq<byte>, tm: dword) returns (same: bool, ghost t: Session)
    requires s.Valid() && s.files.Keys == {fp} && fp.Valid() && fp.modified && fp.contents == [] && fp.fptr == 0
    modifies fp.fs`disk, fp.fs`wflag, fp.fs`winsect, fp.fs`freeClst, fp.fs`lastClst, fp.fs`fsiDirty, fp.fs.win, fp
    modifies fp.buf
    ensures t.Valid() && t.dj == s.dj && t.files == map[] && Outlives(s, t) && Owner(s.files[fp]) in t.owners
    ensures OneSlot(old(s.dj.Content()), s.dj.Content(), s.files[fp]) && s.files[fp] < |s.dj.Content()|
    ensures StillUsed(old(s.dj.Content())[s.files[fp]], s.dj.Content()[s.files[fp]])
    ensures FileAt(s.dj.fs.g, s.dj.fs.Vol(), s.dj.Content()[s.files[fp]], t.owners[Owner(s.files[fp])], fp.contents)
    ensures !s.dj.fs.wflag && s.dj.fs.disk == s.dj.fs.Vol()
    ensures s.Spares(s.dj.fs.g, old(s.dj.fs.Vol()), s.dj.fs.Vol())
    ensures SameBoot(s.dj.fs.g, old(s.dj.fs.Vol()), s.dj.fs.Vol())
    ensures |fp.contents| <= |source| && fp.contents == source[..|fp.contents|]
    ensures fp.fs == s.dj.fs && fp.fs.Attached() && t.owners[Owner(s.files[fp])] == fp.chain
    ensures old(Able(fp)) ==>
      Able(fp) && fp.Reserve() == old(fp.Reserve()) && |fp.contents| == Fitting(fp, |source|, fp.Reserve())
    ensures old(Able(fp) && fp.chain == []) ==> Packed(fp)
    ensures same == (Wrap32(|source|) == Wrap32(|fp.contents|))
    ensures old(fp.Barren()) ==> fp.contents == []
  {
    hide Volume.Valid, Volume.Vol, Dir.Valid, File.Valid, Dir.Content, SameBoot, Wrap32, WellFormed, Owned, Catalog,
         FileAt, OneSlot, StillUsed, Outlives;
    hide Session.Valid, Session.Spares, Session.After, Session.Closed, Session.Ordered, Session.Distinct, Slotted,
         Holds, Apart, IsFree, HasBit, Session.Lost, Session.Without, Session.OthersHome, Session.Calm, StoredUpTo,
         PartStored, Fitting, File.Stuck, Damaged, CountRight, FreeCount, File.Barren, ClustersFor;
    Alone(s, fp);
    s.Separate(fp);
    ghost var vol0 := s.dj.fs.Vol();
    same, t := WriteAll(s, fp, source);
    StoredMeans(fp, source, |source|);
    PartMeans(SightOf(fp), source, |source|, fp.Stuck());
    BarrenMeans(fp);
    ghost var t1, vol1 := t, s.dj.fs.Vol();
    Alone(t1, fp);
    t1.Separate(fp);
    var res;
    res, t := CloseBeside(t1, fp, tm);
    Emptied(s, t1, fp);
    s.SparesTrans(t1, s.dj.fs.g, vol0, vol1, s.dj.fs.Vol());
    SameBootTrans(s.dj.fs.g, vol0, vol1, s.dj.fs.Vol());
  }

  /** Which objects that were closed in s are what they were, after slot i was written. */
  ghost predicate OthersAs(s: Session, t: Session, i: nat, g: Geo, vol: seq<Sector>, vol': seq<Sector>) {
    forall k :: s.Closed(k) && k != Owner(i) ==>
      k in t.owners && t.owners[k] == s.owners[k] && Spared(g, vol, vol', s.owners[k])
  }

  /** In u the file fp is open in slot i; nothing was open in s. */
  ghost predicate OneOpen(s: Session, u: Session, fp: File, i: nat) {
    && u.dj == s.dj && u.files.Keys == {fp} && u.files[fp] == i
    && forall k :: s.Closed(k) && k != Owner(i) ==> u.Closed(k) && u.owners[k] == s.owners[k]
  }

  lemma OnlyOneOpen(s: Session, fp: File, i: nat)
    requires s.files == map[]
    ensures OneOpen(s, s.With(fp, i), fp, i)
  {
  }

  lemma OthersThrough(s: Session, u: Session, fp: File, i: nat, t: Session, g: Geo, vol: seq<Sector>, vol1: seq<Sector>,
                      vol2: seq<Sector>)
    requires OneOpen(s, u, fp, i) && Outlives(u, t) && u.Spares(g, vol, vol1) && u.Spares(g, vol1, vol2)
    ensures OthersAs(s, t, i, g, vol, vol2)
  {
    hide Spared;
    forall k | s.Closed(k) && k != Owner(i)
      ensures k in t.owners && t.owners[k] == s.owners[k] && Spared(g, vol, vol2, s.owners[k])
    {
      assert u.Closed(k);
      SparedTrans(g, vol, vol1, vol2, s.owners[k]);
    }
  }

  /** Nothing is changed when nothing was opened. */
  lemma OthersStay(s: Session, g: Geo, vol: seq<Sector>, i: nat)
    requires s.Spares(g, vol, vol)
    ensures OthersAs(s, s, i, g, vol, vol)
  {
    hide Spared;
  }

  /** Creating an entry and completing it is one insertion. */
  lemma InsertedSlot(slots: seq<Entry32>, slots1: seq<Entry32>, slots2: seq<Entry32>, i: nat, name: Name11)
    requires i < |slots1| && OnlySlot(slots, slots1, i) && PlainEntry(slots1[i], name)
    requires Inserted(slots, name, i, slots1)
    requires OneSlot(slots1, slots2, i) && StillUsed(slots1[i], slots2[i])
    ensures OnlySlot(slots, slots2, i) && PlainEntry(slots2[i], name) && Inserted(slots, name, i, slots2)
  {
    hide WellFormed, IsFree, HasBit, Inserted;
    InsertedFinds(slots, name, i, slots1);
    RefreshKeeps(slots1, name, i, slots2[i]);
    assert slots2 == slots1[i := slots2[i]];
    InsertedTwice(slots, slots1, slots2, name, i);
  }

  /** Stored is what was counted as stored, exactly below 4 GiB. */
  lemma CountedRight(t: Session, name: Name11, i: nat, source: seq<byte>, kept: nat)
    requires t.dj.Valid() && kept <= |source| && HeldAs(t, name, i, source[..kept])
    ensures Wrap32(|source|) == Wrap32(kept) ==> (HeldAs(t, name, i, source) <==> |source| < 0x1_0000_0000)
  {
    hide Dir.Valid, FileHeld, LdClust, PlainEntry;
    if Wrap32(|source|) == Wrap32(kept) && |source| < 0x1_0000_0000 {
      Unwrapped(|source|, kept);
      assert source[..kept] == source;
    }
  }

  /** No error values in the table, and a right free count. */
  ghost predicate SoundVolume(fs: Volume)
    requires fs.Attached()
    reads fs, fs.win
  {
    !Damaged(fs.FatSeq()) && CountRight(fs.freeClst, fs.FatSeq())
  }

  /** The bytes of n that fit into the chain ch and all free clusters. */
  ghost function Capacity(fs: Volume, n: nat, ch: seq<nat>): nat
    requires fs.Attached()
    reads fs, fs.win
  {
    Least(Least(n, 0xFFFF_FFFF), Bound(fs.g.csize, |ch| + FreeCount(fs.FatSeq())))
  }

  /** An absent name, a slot for it, and no free cluster. */
  ghost predicate NewOnFull(dj: Dir)
    requires dj.Valid()
    reads dj, dj.fs, dj.fs.win
  {
    && Directory.Find(dj.Content(), dj.fn, 0) == None && FirstFree(dj.Content(), 0).Some?
    && Full(dj.fs.FatSeq()) && !Damaged(dj.fs.FatSeq())
  }

  /** Why a file cannot be created: its entry is a directory or read-only, or there is no slot for it. */
  ghost predicate Refused(slots: seq<Entry32>, name: Name11) {
    match Directory.Find(slots, name, 0)
    case None => FirstFree(slots, 0) == None
    case Some(k) => ExistingVerdict(CREATE, slots[k][DIR_ATTR]) != Ok
  }

  /** A file just opened by CREATE on a sound volume can be written. */
  lemma OpenedAble(dj: Dir, i: nat, fp: File)
    requires dj.Valid() && OpenFile(dj, CREATE, i, fp)
    ensures fp.Valid() && fp.fs == dj.fs && (SoundVolume(dj.fs) ==> Able(fp))
  {
    hide Dir.Valid, File.Valid, File.Placed, Damaged, CountRight;
  }

  lemma CapacityIs(fp: File, n: nat)
    requires fp.fs.Attached()
    ensures Fitting(fp, n, fp.Reserve()) == Capacity(fp.fs, n, fp.chain)
  {
  }

  lemma WrapsToZero(n: nat)
    ensures Wrap32(n) == Wrap32(0) <==> n % 0x1_0000_0000 == 0
  {
  }

  /** Nothing stands against creating the name but that there may be no slot. */
  ghost predicate Creatable(slots: seq<Entry32>, name: Name11) {
    match Directory.Find(slots, name, 0)
    case None => true
    case Some(k) => ExistingVerdict(CREATE, slots[k][DIR_ATTR]) == Ok
  }

  /** The entry in slot i can be overwritten. */
  ghost predicate Renewable(slots: seq<Entry32>, i: nat) {
    i < |slots| && ExistingVerdict(CREATE, slots[i][DIR_ATTR]) == Ok
  }

  /** A created entry can be overwritten. */
  lemma CreatedRenewable(t: FatType, tm: dword, name: Name11, slots: seq<Entry32>, slots1: seq<Entry32>, i: nat,
                         bytes: seq<byte>, contents: seq<byte>, modified: bool, fptr: nat)
    requires i < |slots1| && Opened(CREATE, t, tm, name, slots, slots1, i, bytes, contents, modified, fptr)
    requires WellFormed(slots) && Proper(name)
    ensures Renewable(slots1, i)
  {
    hide WellFormed, IsFree, Registered, ResetEntry, NewEntry, Directory.Find, Inserted;
    CreatedEmpty(t, tm, name, slots, slots1, i, bytes, contents, modified, fptr);
    OpenedInserts(CREATE, t, tm, name, slots, slots1, i, bytes, contents, modified, fptr);
    ArchiveOnly();
  }

  lemma ArchiveOnly()
    ensures !HasBit(AM_ARC, AM_RDO) && !HasBit(AM_ARC, AM_DIR)
  {
  }

  /** What is stored of a source, from its start, under a name in slot i, on the device. */
  ghost predicate PartHeld(t: Session, name: Name11, i: nat, source: seq<byte>, kept: nat)
    requires t.dj.Valid()
    reads t.dj, t.dj.fs, t.dj.fs.win
  {
    !t.dj.fs.wflag && kept <= |source| && Owner(i) in t.owners && HeldAs(t, name, i, source[..kept])
  }

  /** How much of n bytes is stored on a sound volume, and in how many clusters: all that fit, and no more. */
  ghost predicate WellKept(fs: Volume, n: nat, ch: seq<nat>, kept: nat)
    requires fs.Attached()
    reads fs, fs.win
  {
    kept == Capacity(fs, n, ch) && fs.g.csize > 0 && |ch| == ClustersFor(fs.g.csize, kept)
  }

  lemma KeptWell(fp: File, n: nat)
    requires fp.fs.Attached() && Packed(fp) && |fp.contents| == Fitting(fp, n, fp.Reserve())
    ensures WellKept(fp.fs, n, fp.chain, |fp.contents|)
  {
    hide ClustersFor, Bound;
    CapacityIs(fp, n);
  }

  lemma NoneHome(s: Session)
    requires s.files == map[]
    ensures s.AllHome()
  {
  }

  /** f_open with CREATE when nothing else is open. */
  method OpenNew(ghost s: Session, dj: Dir, tm: dword) returns (fp: File?, ghost i: nat, ghost u: Session)
    requires dj == s.dj && s.Valid() && s.files == map[] && s.Openable(CREATE, []) && Proper(dj.fn)
    modifies dj.fs`disk, dj.fs`wflag, dj.fs`winsect, dj.fs`freeClst, dj.fs`lastClst, dj.fs`fsiDirty, dj.fs.win
    modifies dj`chain, dj`attr, dj`dptr, dj`clust, dj`sect, dj`dir
    ensures u.Valid() && u.dj == dj && SameBoot(dj.fs.g, old(dj.fs.Vol()), dj.fs.Vol())
    ensures old(SoundVolume(dj.fs)) ==> SoundVolume(dj.fs)
    ensures fp == null ==>
      && u == s && dj.fs.Vol() == old(dj.fs.Vol()) && dj.Content() == old(dj.Content()) && Refused(dj.Content(), dj.fn)
      && (dj.fs.wflag ==> old(dj.fs.wflag)) && OthersAs(s, u, i, dj.fs.g, old(dj.fs.Vol()), dj.fs.Vol())
      && !old(NewOnFull(dj))
    ensures fp != null ==>
      && fresh(fp) && fresh(fp.buf) && OneOpen(s, u, fp, i) && u.files.Keys == {fp} && u.files[fp] == i
      && u.Spares(dj.fs.g, old(dj.fs.Vol()), dj.fs.Vol())
      && fp.fs == dj.fs && fp.Valid() && fp.modified && fp.contents == [] && fp.fptr == 0 && fp.chain == []
      && OnlySlot(old(dj.Content()), dj.Content(), i) && OwnSlot(old(dj.Content()), i, dj.fn)
      && i < |dj.Content()| && PlainEntry(dj.Content()[i], dj.fn)
      && Inserted(old(dj.Content()), dj.fn, i, dj.Content()) && Renewable(dj.Content(), i)
      && (SoundVolume(dj.fs) ==> Able(fp)) && (old(NewOnFull(dj)) ==> fp.Barren())
      && (old(Roomy(dj.Content(), dj.fn)) ==> FreeCount(dj.fs.FatSeq()) >= old(FreeCount(dj.fs.FatSeq())))
  {
    hide Volume.Valid, Volume.Vol, Dir.Valid, File.Valid, Dir.Content, SameBoot, WellFormed, Owned, Catalog,
         FileAt, OpenFile, Opened, Directory.Find, FirstFree, ExistingVerdict, Full,
         OnlySlot, OwnSlot, Inserted, PlainEntry, OthersAs, CountRight, FreeCount, Renewable;
    hide Session.Valid, Session.Spares, Session.Closed, Session.Ordered, Session.Distinct,
         Session.With, Session.Openable, Able, Damaged, Session.AllHome, Session.UnhitByDir;
    ghost var vol, slots := dj.fs.Vol(), dj.Content();
    s.InOrder();
    NoneHome(s);
    var res;
    res, fp, i, u := OpenBeside(s, dj, CREATE, tm, []);
    if fp == null {
      OthersStay(s, dj.fs.g, vol, i);
    } else {
      OnlyOneOpen(s, fp, i);
      CreatedEmpty(dj.fs.g.fsType, tm, dj.fn, slots, dj.Content(), i, [], fp.contents, fp.modified, fp.fptr);
      CreatedRenewable(dj.fs.g.fsType, tm, dj.fn, slots, dj.Content(), i, [], fp.contents, fp.modified, fp.fptr);
      OpenedAble(dj, i, fp);
    }
  }

  /** What FillAndClose leaves, as InsertFile tells it. */
  lemma FilledMeans(s: Session, u: Session, fp: File, i: nat, t: Session, dj: Dir, source: seq<byte>, kept: nat,
                    sound: bool)
    requires fp.fs == dj.fs && dj.fs.Attached() && t.dj == dj && Owner(i) in t.owners && t.owners[Owner(i)] == fp.chain
    requires kept == |fp.contents| && (sound ==> Able(fp) && Packed(fp) && kept == Fitting(fp, |source|, fp.Reserve()))
    ensures sound ==> SoundVolume(dj.fs) && WellKept(dj.fs, |source|, t.owners[Owner(i)], kept)
    ensures |t.owners[Owner(i)]| + FreeCount(dj.fs.FatSeq()) == fp.Reserve()
  {
    hide Damaged, CountRight, FreeCount, ClustersFor, Fitting, Packed, Capacity;
    if sound {
      KeptWell(fp, |source|);
    }
  }

  /** A renewable entry is so after it was completed. */
  lemma RenewableOn(slots: seq<Entry32>, slots': seq<Entry32>, i: nat)
    requires Renewable(slots, i) && OneSlot(slots, slots', i) && StillUsed(slots[i], slots'[i])
    ensures Renewable(slots', i)
  {
    hide IsFree, HasBit;
  }

  lemma EmptyReserve(fp: File)
    requires fp.fs.Attached() && fp.chain == []
    ensures fp.Reserve() == FreeCount(fp.fs.FatSeq())
  {
  }

  lemma PartIs(t: Session, name: Name11, i: nat, source: seq<byte>, kept: nat)
    requires t.dj.Valid() && !t.dj.fs.wflag && kept <= |source| && Owner(i) in t.owners
    requires i < |t.dj.Content()| && PlainEntry(t.dj.Content()[i], name)
    requires FileAt(t.dj.fs.g, t.dj.fs.Vol(), t.dj.Content()[i], t.owners[Owner(i)], source[..kept])
    ensures HeldAs(t, name, i, source[..kept]) && PartHeld(t, name, i, source, kept)
  {
    hide Dir.Valid, PlainEntry, FileAt;
  }

  lemma StoredIs(t: Session, i: nat, source: seq<byte>)
    requires t.dj.Valid() && !t.dj.fs.wflag
    ensures Stored(t, i, source) <==> HeldAs(t, t.dj.fn, i, source)
  {
    hide Dir.Valid, HeldAs, Volume.Vol;
    t.dj.fs.CleanShows();
  }

  /**
    InsertFile: create or overwrite the file, write the source into it, close it.
    It is refused only when the name cannot be created.  Otherwise the part
    that is stored is known: on a sound volume all that fits.  Reported success
    is right exactly for sources of less than 4 GiB; a new file on a full volume
    is reported as stored exactly when its length is a multiple of 4 GiB.  The
    other slots and the other objects are what they were.
    */
  method InsertFile(ghost s: Session, dj: Dir, source: seq<byte>, tm0: dword, tm1: dword)
    returns (ok: bool, ghost made: bool, ghost i: nat, ghost t: Session, ghost kept: nat)
    requires dj == s.dj && s.Valid() && s.files == map[] && s.Openable(CREATE, []) && Proper(dj.fn)
    modifies dj.fs`disk, dj.fs`wflag, dj.fs`winsect, dj.fs`freeClst, dj.fs`lastClst, dj.fs`fsiDirty, dj.fs.win
    modifies dj`chain, dj`attr, dj`dptr, dj`clust, dj`sect, dj`dir
    ensures t.Valid() && t.dj == dj && t.files == map[]
    ensures ok ==> !dj.fs.wflag && (Stored(t, i, source) <==> |source| < 0x1_0000_0000)
    ensures if made then
        && OnlySlot(old(dj.Content()), dj.Content(), i) && OwnSlot(old(dj.Content()), i, dj.fn)
        && Inserted(old(dj.Content()), dj.fn, i, dj.Content()) && Renewable(dj.Content(), i)
        && PartHeld(t, dj.fn, i, source, kept) && (ok <==> Wrap32(|source|) == Wrap32(kept))
        && (old(SoundVolume(dj.fs)) ==> WellKept(dj.fs, |source|, t.owners[Owner(i)], kept))
        && (old(SoundVolume(dj.fs) && Roomy(dj.Content(), dj.fn)) ==>
              |t.owners[Owner(i)]| + FreeCount(dj.fs.FatSeq()) >= old(FreeCount(dj.fs.FatSeq())))
      else
        && !ok && t == s && dj.fs.Vol() == old(dj.fs.Vol()) && dj.Content() == old(dj.Content())
        && Refused(dj.Content(), dj.fn) && (dj.fs.wflag ==> old(dj.fs.wflag))
    ensures old(SoundVolume(dj.fs)) ==> SoundVolume(dj.fs)
    ensures OthersAs(s, t, i, dj.fs.g, old(dj.fs.Vol()), dj.fs.Vol())
    ensures SameBoot(dj.fs.g, old(dj.fs.Vol()), dj.fs.Vol())
    ensures old(NewOnFull(dj)) ==> (ok <==> |source| % 0x1_0000_0000 == 0)
  {
    hide *;
    ghost var g, vol, slots, free, sound, roomy, full :=
      dj.fs.g, dj.fs.Vol(), dj.Content(), FreeCount(dj.fs.FatSeq()), SoundVolume(dj.fs), Roomy(dj.Content(), dj.fn),
      NewOnFull(dj);
    var fp;
    fp, i, t := OpenNew(s, dj, tm0);
    if fp == null {
      return false, false, i, t, 0;
    }
    ghost var u, vol1, slots1 := t, dj.fs.Vol(), dj.Content();
    EmptyReserve(fp);
    ok, t := FillAndClose(u, fp, source, tm1);
    made, kept := true, |fp.contents|;
    FilledMeans(s, u, fp, i, t, dj, source, kept, sound);
    InsertedSlot(slots, slots1, dj.Content(), i, dj.fn);
    RenewableOn(slots1, dj.Content(), i);
    PartIs(t, dj.fn, i, source, kept);
    OthersThrough(s, u, fp, i, t, g, vol, vol1, dj.fs.Vol());
    SameBootTrans(g, vol, vol1, dj.fs.Vol());
    CountedRight(t, dj.fn, i, source, kept);
    StoredIs(t, i, source);
    WrapsToZero(|source|);
  }

  // ---- InsertFileToImage

  /** The owner of an existing file is known. */
  ghost predicate Known(slots: seq<Entry32>, owners: map<nat, seq<nat>>, name: Name11) {
    match Directory.Find(slots, name, 0)
    case None => true
    case Some(k) => Owner(k) in owners
  }

  lemma KnownKept(slots: seq<Entry32>, owners: map<nat, seq<nat>>, slots': seq<Entry32>, owners': map<nat, seq<nat>>,
                  i: nat, other: Name11, name: Name11)
    requires Known(slots, owners, name) && Proper(name) && Inserted(slots, other, i, slots') && Owner(i) in owners'
    requires forall k :: k in owners && k != 0 && k != Owner(i) ==> k in owners'
    ensures Known(slots', owners', name)
  {
    hide WellFormed, Directory.Find;
  }

  /** A held file is held after another one is inserted. */
  lemma HeldKept(g: Geo, vol: seq<Sector>, slots: seq<Entry32>, owners: map<nat, seq<nat>>,
                 vol': seq<Sector>, slots': seq<Entry32>, owners': map<nat, seq<nat>>,
                 name: Name11, j: nat, source: seq<byte>, i: nat, other: Name11)
    requires Held(g, vol, slots, owners, name, j, source) && name != other && OnlySlot(slots, slots', i)
    requires OwnSlot(slots, i, other)
    requires forall k :: k in owners && k != 0 && k != Owner(i) ==>
      k in owners' && owners'[k] == owners[k] && Spared(g, vol, vol', owners[k])
    ensures Held(g, vol', slots', owners', name, j, source)
  {
    hide FileHeld, Spared, HasBit, LdClust, FileSize;
    SparedHeld(g, vol, vol', owners[Owner(j)], source);
  }

  /**
    Of the sources stored so far those are held that are less than 4 GiB and whose
    name is not used again up to tried.
    */
  ghost predicate AllHeld(g: Geo, vol: seq<Sector>, slots: seq<Entry32>, owners: map<nat, seq<nat>>,
                          names: seq<Name11>, sources: seq<seq<byte>>, at: seq<nat>, tried: nat)
    requires |at| <= tried <= |names| == |sources|
  {
    forall m :: 0 <= m < |at| && |sources[m]| < 0x1_0000_0000 && names[m] !in names[m + 1..tried] ==>
      Held(g, vol, slots, owners, names[m], at[m], sources[m])
  }

  /** One more was tried, */
  lemma HeldOn(g: Geo, vol: seq<Sector>, slots: seq<Entry32>, owners: map<nat, seq<nat>>,
               vol': seq<Sector>, slots': seq<Entry32>, owners': map<nat, seq<nat>>,
               names: seq<Name11>, sources: seq<seq<byte>>, at: seq<nat>, i: nat)
    requires |at| < |names| == |sources| && AllHeld(g, vol, slots, owners, names, sources, at, |at|)
    requires OnlySlot(slots, slots', i) && OwnSlot(slots, i, names[|at|])
    requires forall k :: k in owners && k != 0 && k != Owner(i) ==>
      k in owners' && owners'[k] == owners[k] && Spared(g, vol, vol', owners[k])
    ensures AllHeld(g, vol', slots', owners', names, sources, at, |at| + 1)
  {
    hide Held, OnlySlot, OwnSlot, Spared;
    var n := |at|;
    forall m | 0 <= m < n && |sources[m]| < 0x1_0000_0000 && names[m] !in names[m + 1..n + 1]
      ensures Held(g, vol', slots', owners', names[m], at[m], sources[m])
    {
      assert names[m + 1..n + 1] == names[m + 1..n] + [names[n]];
      HeldKept(g, vol, slots, owners, vol', slots', owners', names[m], at[m], sources[m], i, names[n]);
    }
  }

  /** and stored. */
  lemma OneMoreHeld(g: Geo, vol: seq<Sector>, slots: seq<Entry32>, owners: map<nat, seq<nat>>,
                    names: seq<Name11>, sources: seq<seq<byte>>, at: seq<nat>, i: nat)
    requires |at| < |names| == |sources| && AllHeld(g, vol, slots, owners, names, sources, at, |at| + 1)
    requires |sources[|at|]| < 0x1_0000_0000 ==> Held(g, vol, slots, owners, names[|at|], i, sources[|at|])
    ensures AllHeld(g, vol, slots, owners, names, sources, at + [i], |at| + 1)
  {
    hide Held;
  }

  // ---- what is enough for a list

  /** The free slots among the first n. */
  ghost function FreeSlots(slots: seq<Entry32>, n: nat): nat
    requires n <= |slots|
  {
    if n == 0 then 0 else FreeSlots(slots, n - 1) + (if IsFree(slots[n - 1]) then 1 else 0)
  }

  /** An insertion uses up one of them at most. */
  lemma {:induction false} OneSlotLess(slots: seq<Entry32>, slots': seq<Entry32>, i: nat, n: nat)
    requires OnlySlot(slots, slots', i) && n <= |slots|
    ensures FreeSlots(slots', n) + (if i < n then 1 else 0) >= FreeSlots(slots, n)
  {
    hide IsFree;
    if n > 0 {
      OneSlotLess(slots, slots', i, n - 1);
    }
  }

  lemma {:induction false} MoreSlots(slots: seq<Entry32>, m: nat, n: nat)
    requires m <= n <= |slots|
    ensures FreeSlots(slots, m) <= FreeSlots(slots, n)
  {
    if m < n {
      MoreSlots(slots, m, n - 1);
    }
  }

  lemma {:induction false} NoneFirst(slots: seq<Entry32>, from: nat)
    requires from <= |slots| && FirstFree(slots, from) == None
    ensures forall j :: from <= j < |slots| ==> !IsFree(slots[j])
    decreases |slots| - from
  {
    if from < |slots| {
      NoneFirst(slots, from + 1);
    }
  }

  lemma {:induction false} NoneCounted(slots: seq<Entry32>, n: nat)
    requires n <= |slots| && forall j :: 0 <= j < n ==> !IsFree(slots[j])
    ensures FreeSlots(slots, n) == 0
  {
    if n > 0 {
      NoneCounted(slots, n - 1);
    }
  }

  /** Where a slot is free, there is a first one. */
  lemma SomeSlot(slots: seq<Entry32>)
    requires FreeSlots(slots, |slots|) > 0
    ensures FirstFree(slots, 0).Some?
  {
    hide IsFree, FreeSlots, FirstFree;
    if FirstFree(slots, 0) == None {
      NoneFirst(slots, 0);
      NoneCounted(slots, |slots|);
    }
  }

  /** The clusters the sources from number n on need. */
  ghost function ClustersOfAll(csize: nat, sources: seq<seq<byte>>, n: nat): nat
    requires csize > 0 && n <= |sources|
    decreases |sources| - n
  {
    if n == |sources| then 0 else ClustersFor(csize, |sources[n]|) + ClustersOfAll(csize, sources, n + 1)
  }

  /** The files from number n on will fit: a slot for each, clusters for all, no name in the way, none of 4 GiB. */
  ghost predicate AllFit(slots: seq<Entry32>, csize: nat, free: nat, names: seq<Name11>, sources: seq<seq<byte>>,
                         n: nat)
    requires n <= |names| == |sources|
  {
    && csize > 0 && FreeSlots(slots, |slots|) >= |names| - n && ClustersOfAll(csize, sources, n) <= free
    && forall m :: n <= m < |names| ==> Creatable(slots, names[m]) && |sources[m]| < 0x1_0000_0000
  }

  lemma CreatableOn(slots: seq<Entry32>, slots': seq<Entry32>, i: nat, other: Name11, name: Name11)
    requires Creatable(slots, name) && Proper(name) && Inserted(slots, other, i, slots') && OnlySlot(slots, slots', i)
    requires Renewable(slots', i)
    ensures Creatable(slots', name)
  {
    hide WellFormed, Directory.Find, HasBit;
  }

  /** They still will when the next one is stored. */
  lemma FitOn(slots: seq<Entry32>, slots': seq<Entry32>, csize: nat, free: nat, free': nat, names: seq<Name11>,
              sources: seq<seq<byte>>, n: nat, i: nat)
    requires n < |names| == |sources| && AllFit(slots, csize, free, names, sources, n)
    requires OnlySlot(slots, slots', i) && Inserted(slots, names[n], i, slots') && Renewable(slots', i)
    requires ClustersFor(csize, |sources[n]|) + free' >= free
    requires forall m :: 0 <= m < |names| ==> Proper(names[m])
    ensures AllFit(slots', csize, free', names, sources, n + 1)
  {
    hide Creatable, Inserted, Renewable, ClustersFor, IsFree;
    OneSlotLess(slots, slots', i, |slots|);
    MoreSlots(slots', |slots|, |slots'|);
    forall m | n + 1 <= m < |names|
      ensures Creatable(slots', names[m])
    {
      CreatableOn(slots, slots', i, names[n], names[m]);
    }
  }

  /** The next one finds a slot, and there is nothing against it. */
  lemma FitNow(slots: seq<Entry32>, csize: nat, free: nat, names: seq<Name11>, sources: seq<seq<byte>>, n: nat)
    requires n < |names| == |sources| && AllFit(slots, csize, free, names, sources, n)
    ensures Roomy(slots, names[n]) && !Refused(slots, names[n])
    ensures ClustersFor(csize, |sources[n]|) <= free && |sources[n]| < 0x1_0000_0000
  {
    hide Directory.Find, FirstFree, FreeSlots, HasBit, ClustersFor;
    SomeSlot(slots);
  }

  /** Then all of it is stored. */
  lemma AllKept(fs: Volume, n: nat, ch: seq<nat>, kept: nat, free: nat)
    requires fs.Attached() && WellKept(fs, n, ch, kept) && n < 0x1_0000_0000
    requires |ch| + FreeCount(fs.FatSeq()) >= free >= ClustersFor(fs.g.csize, n)
    ensures kept == n && |ch| == ClustersFor(fs.g.csize, n)
  {
    hide ClustersFor, Bound, FreeCount;
    ClustersFit(fs.g.csize, n, |ch| + FreeCount(fs.FatSeq()));
  }

  /** A fresh directory object for the same table. */
  lemma Rebased(t: Session, dj: Dir)
    requires t.Valid() && t.files == map[] && dj.fs == t.dj.fs && dj.sclust == t.dj.sclust && dj.chain == t.dj.chain
    requires dj.Valid()
    ensures t.(dj := dj).Valid() && dj.Content() == t.dj.Content()
  {
    hide Volume.Valid, Volume.Vol, WellFormed, Owned, Catalog, Fat, DirChain, Slots, Table;
    dj.Relinked();
    t.dj.Relinked();
  }

  lemma KnownOpenable(t: Session, name: Name11)
    requires t.dj.Valid() && t.files == map[] && t.dj.fn == name && Known(t.dj.Content(), t.owners, name)
    ensures t.Openable(CREATE, [])
  {
    hide Dir.Valid, Directory.Find, Dir.Content, HasBit, FileHeld;
  }

  /** What OthersAs says about all owners when nothing is open. */
  lemma OthersAll(s: Session, t: Session, i: nat, g: Geo, vol: seq<Sector>, vol': seq<Sector>)
    requires s.files == map[] && OthersAs(s, t, i, g, vol, vol')
    ensures forall k :: k in s.owners && k != 0 && k != Owner(i) ==>
      k in t.owners && t.owners[k] == s.owners[k] && Spared(g, vol, vol', s.owners[k])
  {
    hide Spared;
    assert forall k :: k in s.owners && k != 0 ==> s.Closed(k);
  }

  /** The owners of all names are known. */
  ghost predicate AllKnown(slots: seq<Entry32>, owners: map<nat, seq<nat>>, names: seq<Name11>) {
    forall m :: 0 <= m < |names| ==> Known(slots, owners, names[m])
  }

  lemma AllKnownKept(slots: seq<Entry32>, owners: map<nat, seq<nat>>, slots': seq<Entry32>, owners': map<nat, seq<nat>>,
                     names: seq<Name11>, i: nat, other: Name11)
    requires AllKnown(slots, owners, names) && (forall m :: 0 <= m < |names| ==> Proper(names[m]))
    requires Inserted(slots, other, i, slots') && Owner(i) in owners'
    requires forall k :: k in owners && k != 0 && k != Owner(i) ==> k in owners'
    ensures AllKnown(slots', owners', names)
  {
    hide Known, Inserted;
    forall m | 0 <= m < |names|
      ensures Known(slots', owners', names[m])
    {
      KnownKept(slots, owners, slots', owners', i, other, names[m]);
    }
  }

  /** One file of a list: f_open makes a directory object of its own. */
  method InsertNext(fs: Volume, sclust: nat, name: Name11, source: seq<byte>, tm0: dword, tm1: dword, ghost s: Session)
    returns (ok: bool, ghost made: bool, ghost t: Session, ghost i: nat, ghost kept: nat)
    requires s.Valid() && s.files == map[] && s.dj.fs == fs && s.dj.sclust == sclust
    requires Proper(name) && Known(s.dj.Content(), s.owners, name)
    modifies fs`disk, fs`wflag, fs`winsect, fs`freeClst, fs`lastClst, fs`fsiDirty, fs.win
    ensures t.Valid() && t.files == map[] && t.dj.fs == fs && t.dj.sclust == sclust
    ensures if made then
        && OnlySlot(old(s.dj.Content()), t.dj.Content(), i) && OwnSlot(old(s.dj.Content()), i, name)
        && Inserted(old(s.dj.Content()), name, i, t.dj.Content()) && Renewable(t.dj.Content(), i)
        && PartHeld(t, name, i, source, kept) && (ok <==> Wrap32(|source|) == Wrap32(kept))
        && (old(SoundVolume(fs)) ==> WellKept(fs, |source|, t.owners[Owner(i)], kept))
        && (old(SoundVolume(fs) && Roomy(s.dj.Content(), name)) ==>
              |t.owners[Owner(i)]| + FreeCount(fs.FatSeq()) >= old(FreeCount(fs.FatSeq())))
      else
        && !ok && t.owners == s.owners && fs.Vol() == old(fs.Vol()) && t.dj.Content() == old(s.dj.Content())
        && Refused(t.dj.Content(), name) && (fs.wflag ==> old(fs.wflag))
    ensures old(SoundVolume(fs)) ==> SoundVolume(fs)
    ensures ok && |source| < 0x1_0000_0000 ==> HeldAs(t, name, i, source)
    ensures forall k :: k in s.owners && k != 0 && k != Owner(i) ==>
      k in t.owners && t.owners[k] == s.owners[k] && Spared(fs.g, old(fs.Vol()), fs.Vol(), s.owners[k])
    ensures SameBoot(fs.g, old(fs.Vol()), fs.Vol())
  {
    hide Volume.Valid, Volume.Vol, Dir.Valid, Dir.Content, SameBoot, WellFormed, OnlySlot, OwnSlot, Inserted, OthersAs,
         Known, HeldAs, Spared, DirChain, Fat, Renewable, PartHeld, WellKept, Roomy, Refused, Wrap32, Damaged,
         CountRight, FreeCount;
    hide Session.Valid, Session.Openable, Session.Closed;
    s.dj.Linked();
    var dj := new Dir(fs, sclust, name, s.dj.chain);
    Rebased(s, dj);
    ghost var u := s.(dj := dj);
    KnownOpenable(u, name);
    ghost var vol := fs.Vol();
    ok, made, i, t, kept := InsertFile(u, dj, source, tm0, tm1);
    OthersAll(u, t, i, fs.g, vol, fs.Vol());
  }

  /** Why a file of a list was not stored: it was refused, or only a part that the counters tell from all of it. */
  ghost predicate Missed(t: Session, name: Name11, source: seq<byte>, i: nat, kept: nat, sound: bool)
    requires t.dj.Valid()
    reads t.dj, t.dj.fs, t.dj.fs.win
  {
    || Refused(t.dj.Content(), name)
    || (PartHeld(t, name, i, source, kept) && Wrap32(|source|) != Wrap32(kept)
        && (sound ==> kept == Capacity(t.dj.fs, |source|, t.owners[Owner(i)])))
  }

  lemma MissedAs(t: Session, name: Name11, source: seq<byte>, i: nat, kept: nat, sound: bool, sound0: bool)
    requires t.dj.Valid() && Missed(t, name, source, i, kept, sound) && (sound0 ==> sound)
    ensures Missed(t, name, source, i, kept, sound0)
  {
    hide Dir.Valid, PartHeld, Refused, Capacity;
  }

  lemma NoneHeld(g: Geo, vol: seq<Sector>, slots: seq<Entry32>, owners: map<nat, seq<nat>>, names: seq<Name11>,
                 sources: seq<seq<byte>>)
    requires |names| == |sources|
    ensures AllHeld(g, vol, slots, owners, names, sources, [], 0)
  {
  }

  lemma HeldLess(g: Geo, vol: seq<Sector>, slots: seq<Entry32>, owners: map<nat, seq<nat>>, names: seq<Name11>,
                 sources: seq<seq<byte>>, at: seq<nat>)
    requires |at| < |names| == |sources| && AllHeld(g, vol, slots, owners, names, sources, at, |at|)
    ensures AllHeld(g, vol, slots, owners, names, sources, at, |at| + 1)
  {
    hide Held;
    forall m | 0 <= m < |at| && names[m] in names[m + 1..|at|]
      ensures names[m] in names[m + 1..|at| + 1]
    {
      assert names[m + 1..|at| + 1] == names[m + 1..|at|] + [names[|at|]];
    }
  }

  /** The next file of a list, after those that are at the slots at. */
  method InsertOneOf(fs: Volume, sclust: nat, names: seq<Name11>, sources: seq<seq<byte>>, n: nat, tm0: dword,
                     tm1: dword, ghost s: Session, ghost at: seq<nat>)
    returns (ok: bool, ghost t: Session, ghost i: nat, ghost kept: nat)
    requires s.Valid() && s.files == map[] && s.dj.fs == fs && s.dj.sclust == sclust
    requires |at| == n < |names| == |sources| && AllKnown(s.dj.Content(), s.owners, names)
    requires forall m :: 0 <= m < |names| ==> Proper(names[m])
    requires AllHeld(fs.g, fs.Vol(), s.dj.Content(), s.owners, names, sources, at, n)
    modifies fs`disk, fs`wflag, fs`winsect, fs`freeClst, fs`lastClst, fs`fsiDirty, fs.win
    ensures t.Valid() && t.files == map[] && t.dj.fs == fs && t.dj.sclust == sclust
    ensures SameBoot(fs.g, old(fs.Vol()), fs.Vol()) && (fs.wflag ==> old(fs.wflag) && !ok)
    ensures AllHeld(fs.g, fs.Vol(), t.dj.Content(), t.owners, names, sources, if ok then at + [i] else at, n + 1)
    ensures ok ==> AllKnown(t.dj.Content(), t.owners, names)
    ensures !ok ==> Missed(t, names[n], sources[n], i, kept, old(SoundVolume(fs)))
    ensures old(SoundVolume(fs)) ==> SoundVolume(fs)
    ensures old(SoundVolume(fs) && AllFit(s.dj.Content(), fs.g.csize, FreeCount(fs.FatSeq()), names, sources, n)) ==>
      ok && AllFit(t.dj.Content(), fs.g.csize, FreeCount(fs.FatSeq()), names, sources, n + 1)
  {
    hide Volume.Valid, Volume.Vol, Volume.FatSeq, Dir.Valid, Dir.Content, SameBoot, WellFormed, OnlySlot, OwnSlot,
         Inserted, Held, Spared, AllFit, AllHeld, Known, Proper, FreeCount, SoundVolume, Renewable, Refused, Roomy,
         Wrap32, ClustersFor, Capacity;
    hide Session.Valid, Session.Closed;
    ghost var g, vol, slots, free := fs.g, fs.Vol(), s.dj.Content(), FreeCount(fs.FatSeq());
    ghost var fits := SoundVolume(fs) && AllFit(slots, g.csize, free, names, sources, n);
    ghost var made;
    NextKnown(slots, s.owners, names, n);
    if fits {
      FitNow(slots, g.csize, free, names, sources, n);
    }
    ok, made, t, i, kept := InsertNext(fs, sclust, names[n], sources[n], tm0, tm1, s);
    if !made {
      HeldLess(g, fs.Vol(), t.dj.Content(), t.owners, names, sources, at);
    } else {
      HeldOn(g, vol, slots, s.owners, fs.Vol(), t.dj.Content(), t.owners, names, sources, at, i);
      if fits {
        AllKept(fs, |sources[n]|, t.owners[Owner(i)], kept, free);
        FitOn(slots, t.dj.Content(), g.csize, free, FreeCount(fs.FatSeq()), names, sources, n, i);
      }
      if ok {
        OneMoreHeld(g, fs.Vol(), t.dj.Content(), t.owners, names, sources, at, i);
        AllKnownKept(slots, s.owners, t.dj.Content(), t.owners, names, i, names[n]);
      }
    }
  }

  lemma NextKnown(slots: seq<Entry32>, owners: map<nat, seq<nat>>, names: seq<Name11>, n: nat)
    requires AllKnown(slots, owners, names) && n < |names|
    ensures Known(slots, owners, names[n])
  {
    hide Known;
  }

  /**
    InsertFileToImage: the files of a list, one after another, up to the first
    failure.  What was stored before is held also then; on a sound volume where
    all of them fit there is no failure.
    */
  method InsertFiles(fs: Volume, sclust: nat, names: seq<Name11>, sources: seq<seq<byte>>, tm0: dword, tm1: dword,
                     ghost s: Session)
    returns (ok: bool, n: nat, ghost t: Session, ghost at: seq<nat>, ghost i: nat, ghost kept: nat)
    requires s.Valid() && s.files == map[] && s.dj.fs == fs && s.dj.sclust == sclust && |sources| == |names|
    requires AllKnown(s.dj.Content(), s.owners, names) && forall m :: 0 <= m < |names| ==> Proper(names[m])
    modifies fs`disk, fs`wflag, fs`winsect, fs`freeClst, fs`lastClst, fs`fsiDirty, fs.win
    ensures t.Valid() && t.files == map[] && t.dj.fs == fs && t.dj.sclust == sclust
    ensures SameBoot(fs.g, old(fs.Vol()), fs.Vol())
    ensures |at| == n <= |names| && (ok <==> n == |names|) && (n > 0 ==> !fs.wflag)
    ensures AllHeld(fs.g, fs.Vol(), t.dj.Content(), t.owners, names, sources, at, if ok then n else n + 1)
    ensures !ok ==> Missed(t, names[n], sources[n], i, kept, old(SoundVolume(fs)))
    ensures old(SoundVolume(fs) && AllFit(s.dj.Content(), fs.g.csize, FreeCount(fs.FatSeq()), names, sources, 0)) ==> ok
  {
    hide Volume.Valid, Volume.Vol, Dir.Valid, Dir.Content, SameBoot, WellFormed, OnlySlot, OwnSlot, Inserted, Held,
         Spared, AllFit, AllHeld, AllKnown, Missed, Proper, Damaged, CountRight, FreeCount, SoundVolume;
    hide Session.Valid, Session.Closed;
    ghost var g, vol, csize := fs.g, fs.Vol(), fs.g.csize;
    RunStart(s, []);
    NoneHeld(g, vol, s.dj.Content(), s.owners, names, sources);
    t, at, ok, i, kept := s, [], true, 0, 0;
    n := 0;
    while n < |names|
      invariant n <= |names| && |at| == n && t.Valid() && t.files == map[] && t.dj.fs == fs && t.dj.sclust == sclust
      invariant AllKnown(t.dj.Content(), t.owners, names) && SameBoot(g, vol, fs.Vol())
      invariant AllHeld(g, fs.Vol(), t.dj.Content(), t.owners, names, sources, at, n) && (n > 0 ==> !fs.wflag)
      invariant ok && (old(SoundVolume(fs)) ==> SoundVolume(fs))
      invariant old(SoundVolume(fs) && AllFit(s.dj.Content(), csize, FreeCount(fs.FatSeq()), names, sources, 0)) ==>
        AllFit(t.dj.Content(), csize, FreeCount(fs.FatSeq()), names, sources, n)
    {
      ghost var vol1, sound1 := fs.Vol(), SoundVolume(fs);
      ok, t, i, kept := InsertOneOf(fs, sclust, names, sources, n, tm0, tm1, t, at);
      SameBootTrans(g, vol, vol1, fs.Vol());
      if !ok {
        MissedAs(t, names[n], sources[n], i, kept, sound1, old(SoundVolume(fs)));
        return;
      }
      n, at := n + 1, at + [i];
    }
  }

  lemma NothingStored(fp: File, source: seq<byte>, c: nat)
    requires fp.Valid() && fp.modified && fp.contents == [] && fp.fptr == 0
    ensures StoredUpTo(fp, source, 0) && Fitting(fp, 0, c) == 0
  {
    hide File.Valid, File.Stuck;
    assert source[..0] == [];
  }

  /** A piece written at the end of what is stored. */
  lemma PieceStored(source: seq<byte>, pos: nat, n: nat, was: Sight, r: Answer, now: Sight, stuck: bool, stuck': bool)
    requires 0 < n && pos + n <= |source| && n < 0x1_0000_0000 && PartStored(was, source, pos, stuck)
    requires (stuck ==> r.count == 0 && stuck') && (r.count < n ==> stuck')
    requires Follows(WriteCall(source[pos..pos + n]), was, r, now)
    ensures PartStored(now, source, pos + n, stuck') && |now.bytes| == |was.bytes| + r.count && was.at == |was.bytes|
    ensures now.at == |now.bytes|
  {
    var data := source[pos..pos + n];
    SpliceAppend(was.bytes, data[..r.count]);
    assert now.bytes == was.bytes + data[..r.count];
    assert r.count > 0 ==> source[..pos] + data[..r.count] == source[..pos + r.count];
  }

  lemma Wrap32Sum(a: nat, b: nat)
    ensures Wrap32(Wrap32(a) + b) == Wrap32(a + b) && Wrap32(0) == 0
  {
    WrapInside(b, a);
  }

  lemma Unwrapped(a: nat, b: nat)
    requires Wrap32(a) == Wrap32(b) && b <= a < 0x1_0000_0000
    ensures a == b
  {
  }


  // ---- reading back after a fresh mount

  /** The volume in the image can be mounted: its boot record gives geometry g. */
  ghost predicate Bootable(disk: seq<Sector>, g: Geo) {
    && g.volbase < |disk| < 0x1_0000_0000 && Mountable(disk[g.volbase]) && Fits(disk[g.volbase], g.volbase, |disk|)
    && g == LayoutOf(disk[g.volbase], g.volbase, |disk|)
    && (UsesFsInfo(disk[g.volbase]) ==> LdWord(disk[g.volbase], BPB_RSVD_SEC_CNT) >= 2)
  }

  /** A directory on a device holds a plain file under a name. */
  ghost predicate OnDisk(g: Geo, disk: seq<Sector>, sclust: nat, dch: seq<nat>, name: Name11, ch: seq<nat>,
                         source: seq<byte>) {
    && IsVolume(g, disk) && Mirrored(g, disk) && InArea(g, dch) && DirChain(g, Fat(g, disk), sclust, dch)
    && OnVolume(disk, Table(g, sclust, dch))
    && var slots := Slots(disk, Table(g, sclust, dch));
      match Directory.Find(slots, name, 0)
      case None => false
      case Some(i) => !HasBit(slots[i][DIR_ATTR], AM_DIR) && FileAt(g, disk, slots[i], ch, source) && Apart(dch, ch)
  }

  /** f_open for reading on a volume that holds the file. */
  method OpenToRead(fs: Volume, sclust: nat, name: Name11, ghost dch: seq<nat>, ghost ch: seq<nat>,
                    ghost source: seq<byte>)
    returns (fp: File?)
    requires fs.Valid() && OnDisk(fs.g, fs.Vol(), sclust, dch, name, ch, source)
    modifies fs`disk, fs`wflag, fs`winsect, fs`freeClst, fs`lastClst, fs`fsiDirty, fs.win
    ensures fp != null && fresh(fp) && fresh(fp.buf) && fp.fs == fs && fp.Valid() && fp.isOpen && fp.err == Ok
    ensures fp.canRead
    ensures fp.contents == source && fp.fptr == 0
  {
    hide Volume.Valid, Volume.Vol, Fat, Slots, Table, DirChain, Sectors, IsChain, FileRep, Dir.OnTable, FileHeld,
         Cut, Registered, Directory.Find, LdClust, Holds;
    var dj := new Dir(fs, sclust, name, dch);
    var res;
    ghost var i := Directory.Find(dj.Content(), name, 0).value;
    FileOfChain(fs.g, fs.Vol(), dj.Content()[i], ch, source);
    res, fp, i := Open(dj, READ, 0, ch, source);
  }

  /** A fresh mount, f_open and one f_read give back the bytes of the file. */
  method ReadBack(disk: seq<Sector>, ghost g: Geo, bsect: dword, sclust: nat, name: Name11,
                  ghost dch: seq<nat>, ghost ch: seq<nat>, ghost source: seq<byte>)
    returns (res: Result, data: seq<byte>)
    requires bsect == g.volbase && Bootable(disk, g) && OnDisk(g, disk, sclust, dch, name, ch, source)
    ensures res == Ok && data == source
  {
    hide Volume.Valid, Volume.Vol, Mountable, Fits, LayoutOf, UsesFsInfo, IsFsInfo, Fat, Slots, FileAt, DirChain,
         Table, LdWord, LdDword, Mirrored;
    hide File.Core, File.OnCluster, File.OnSector;
    var fs;
    res, fs := MountVolume(disk, bsect);
    var fp := OpenToRead(fs, sclust, name, dch, ch, source);
    res, data := fp.Read(fp.objsize);
    assert source[..|source|] == source;
  }

  lemma BootableKept(g: Geo, vol: seq<Sector>, vol': seq<Sector>)
    requires Bootable(vol, g) && SameBoot(g, vol, vol')
    ensures Bootable(vol', g)
  {
  }

  /** What is held on a flushed volume is on the device. */
  lemma HeldOnDisk(t: Session, name: Name11, i: nat, source: seq<byte>)
    requires t.Valid() && HeldAs(t, name, i, source) && !t.dj.fs.wflag
    ensures Owner(i) in t.owners
    ensures OnDisk(t.dj.fs.g, t.dj.fs.disk, t.dj.sclust, t.dj.chain, name, t.owners[Owner(i)], source)
    ensures t.dj.fs.disk == t.dj.fs.Vol()
  {
    hide Fat, Slots, Table, DirChain, FileAt, WellFormed, Mirrored, Catalog, HasBit, IsFree, Slotted, Directory.Find;
    t.dj.Linked();
    t.dj.Relinked();
    t.dj.TblFacts();
    UsedIsFound(t.dj.Content(), i);
  }

  /**
    Durability of a list of files: after a fresh mount of the image f_open and
    f_read give back exactly each source that was stored, of less than 4 GiB,
    whose name does not come again; all of them were stored if they fit on a
    sound volume.
    */
  method InsertThenRead(fs: Volume, sclust: nat, names: seq<Name11>, sources: seq<seq<byte>>, tm0: dword, tm1: dword,
                        m: nat, ghost s: Session)
    returns (ok: bool, n: nat, res: Result, data: seq<byte>)
    requires s.Valid() && s.files == map[] && s.dj.fs == fs && s.dj.sclust == sclust && |sources| == |names|
    requires AllKnown(s.dj.Content(), s.owners, names) && forall j :: 0 <= j < |names| ==> Proper(names[j])
    requires Bootable(fs.Vol(), fs.g) && m < |names| && |sources[m]| < 0x1_0000_0000 && names[m] !in names[m + 1..]
    modifies fs`disk, fs`wflag, fs`winsect, fs`freeClst, fs`lastClst, fs`fsiDirty, fs.win
    ensures m < n ==> res == Ok && data == sources[m]
    ensures n <= |names| && (ok <==> n == |names|)
    ensures old(SoundVolume(fs) && AllFit(s.dj.Content(), fs.g.csize, FreeCount(fs.FatSeq()), names, sources, 0)) ==>
      ok && res == Ok && data == sources[m]
  {
    hide Volume.Valid, Volume.Vol, Dir.Valid, Dir.Content, SameBoot, WellFormed, Held, OnDisk, Bootable, AllKnown,
         Session.Valid, Proper, AllFit, AllHeld, SoundVolume, FreeCount, Missed;
    ghost var vol, t, at, i, kept := fs.Vol(), s, [], 0, 0;
    ok, n, t, at, i, kept := InsertFiles(fs, sclust, names, sources, tm0, tm1, s);
    res, data := IntErr, [];
    if m < n {
      HeldOfAll(t, names, sources, at, if ok then n else n + 1, m);
      BootableKept(fs.g, vol, fs.Vol());
      HeldOnDisk(t, names[m], at[m], sources[m]);
      res, data := ReadBack(fs.disk, fs.g, fs.g.volbase, sclust, names[m], t.dj.chain, t.owners[Owner(at[m])],
                            sources[m]);
    }
  }

  lemma HeldOfAll(t: Session, names: seq<Name11>, sources: seq<seq<byte>>, at: seq<nat>, tried: nat, m: nat)
    requires t.dj.Valid() && m < |at| <= tried <= |names| == |sources|
    requires AllHeld(t.dj.fs.g, t.dj.fs.Vol(), t.dj.Content(), t.owners, names, sources, at, tried)
    requires |sources[m]| < 0x1_0000_0000 && names[m] !in names[m + 1..]
    ensures HeldAs(t, names[m], at[m], sources[m])
  {
    hide Held, Dir.Valid, Dir.Content;
    assert names[m + 1..] == names[m + 1..tried] + names[tried..];
  }

  // ---- any run of calls

  /** Every user's file is closed once. */
  ghost predicate Lists(open: seq<File>, files: map<File, nat>) {
    && (forall k :: 0 <= k < |open| ==> open[k] in files) && (forall f :: f in files ==> f in open)
    && forall j, k :: 0 <= j < k < |open| ==> open[j] != open[k]
  }

  /** The bytes of the file will be described by its entry when it is closed. */
  ghost predicate Tellable(x: Sight) {
    x.flagged || x.err == Ok
  }

  /** Closing the files will write the window: it does not wait, or some file waits to be written itself. */
  ghost predicate Durable(a: Scene, f: File) {
    && f in a.files && Tellable(a.files[f])
    && (a.store.waiting ==> exists h :: h in a.files && a.files[h].flagged)
  }

  ghost predicate OwnSlots(files: map<File, nat>) {
    forall f, h :: f in files && h in files && f != h ==> files[f] != files[h]
  }

  /** Plain files under these names. */
  ghost predicate Named(slots: seq<Entry32>, files: map<File, nat>, names: map<File, Name11>) {
    forall f :: f in files ==>
      && f in names && files[f] < |slots| && slots[files[f]][..11] == names[f]
      && !HasBit(slots[files[f]][DIR_ATTR], AM_DIR)
  }

  /** The files from number k of the list on are open. */
  ghost predicate RestOpen(open: seq<File>, k: nat, files: map<File, nat>, rest: map<File, nat>) {
    && k <= |open| && (forall f :: f in open[k..] ==> f in rest)
    && forall f :: f in rest ==> f in open[k..] && f in files && rest[f] == files[f]
  }

  /** The users of the open files still see what they saw. */
  ghost predicate AsSeen(t: Session, sights: map<File, Sight>)
    reads t.files.Keys
  {
    forall f :: f in t.files ==> f in sights && SightOf(f) == sights[f]
  }

  /** The first k files of the list are held under their names, if they could be told. */
  ghost predicate HeldSoFar(g: Geo, vol: seq<Sector>, slots: seq<Entry32>, owners: map<nat, seq<nat>>, open: seq<File>,
                            k: nat, files: map<File, nat>, names: map<File, Name11>, sights: map<File, Sight>) {
    && k <= |open|
    && forall j :: 0 <= j < k ==>
      && open[j] in files && open[j] in names && open[j] in sights
      && (Tellable(sights[open[j]]) ==>
            Held(g, vol, slots, owners, names[open[j]], files[open[j]], sights[open[j]].bytes))
  }

  /** A held file is held when its slot, its owner and its sectors are as they were. */
  lemma HeldAcross(g: Geo, vol: seq<Sector>, slots: seq<Entry32>, owners: map<nat, seq<nat>>, vol': seq<Sector>,
                   slots': seq<Entry32>, owners': map<nat, seq<nat>>, name: Name11, i: nat, source: seq<byte>)
    requires Held(g, vol, slots, owners, name, i, source) && i < |slots'| && slots'[i] == slots[i]
    requires Owner(i) in owners' && owners'[Owner(i)] == owners[Owner(i)] && Spared(g, vol, vol', owners[Owner(i)])
    ensures Held(g, vol', slots', owners', name, i, source)
  {
    hide FileHeld, Spared, HasBit, LdClust, FileSize;
    SparedHeld(g, vol, vol', owners[Owner(i)], source);
  }

  /** One file more is closed: it is held if it could be told, and so are those before it. */
  lemma HeldByClose(s: Session, t: Session, f: File, g: Geo, vol: seq<Sector>, slots: seq<Entry32>, vol': seq<Sector>,
                    slots': seq<Entry32>, open: seq<File>, k: nat, files: map<File, nat>, names: map<File, Name11>,
                    sights: map<File, Sight>)
    requires HeldSoFar(g, vol, slots, s.owners, open, k, files, names, sights) && Lists(open, files) && OwnSlots(files)
    requires k < |open| && open[k] == f && f in sights && RestOpen(open, k, files, s.files) && f in names
    requires s.Spares(g, vol, vol') && f in s.files && OneSlot(slots, slots', files[f])
    requires forall j :: j in s.owners && j != Owner(files[f]) ==> j in t.owners && t.owners[j] == s.owners[j]
    requires Tellable(sights[f]) ==> Held(g, vol', slots', t.owners, names[f], files[f], sights[f].bytes)
    ensures HeldSoFar(g, vol', slots', t.owners, open, k + 1, files, names, sights)
  {
    hide Held, Spared, Tellable;
    forall j | 0 <= j < k && Tellable(sights[open[j]])
      ensures Held(g, vol', slots', t.owners, names[open[j]], files[open[j]], sights[open[j]].bytes)
    {
      EarlierStays(s, t, f, g, vol, slots, vol', slots', open, k, files, names, sights, j);
    }
  }

  lemma EarlierStays(s: Session, t: Session, f: File, g: Geo, vol: seq<Sector>, slots: seq<Entry32>, vol': seq<Sector>,
                     slots': seq<Entry32>, open: seq<File>, k: nat, files: map<File, nat>, names: map<File, Name11>,
                     sights: map<File, Sight>, j: nat)
    requires j < k < |open| && open[k] == f && open[j] in files && open[j] in names && open[j] in sights
    requires Held(g, vol, slots, s.owners, names[open[j]], files[open[j]], sights[open[j]].bytes)
    requires Lists(open, files) && OwnSlots(files) && RestOpen(open, k, files, s.files)
    requires s.Spares(g, vol, vol') && OneSlot(slots, slots', files[f])
    requires forall j :: j in s.owners && j != Owner(files[f]) ==> j in t.owners && t.owners[j] == s.owners[j]
    ensures Held(g, vol', slots', t.owners, names[open[j]], files[open[j]], sights[open[j]].bytes)
  {
    hide FileAt, PlainEntry, Spared;
    var h, i := open[j], files[open[j]];
    assert forall f :: f in s.files ==> f in open[k..] && files[f] != i;
    assert s.Closed(Owner(i));
    HeldAcross(g, vol, slots, s.owners, vol', slots', t.owners, names[h], i, sights[h].bytes);
  }

  lemma RestAfter(open: seq<File>, k: nat, files: map<File, nat>, rest: map<File, nat>)
    requires RestOpen(open, k, files, rest) && k < |open| && Lists(open, files)
    ensures open[k] in rest && open[k] in files && rest[open[k]] == files[open[k]]
    ensures RestOpen(open, k + 1, files, rest - {open[k]})
  {
    assert open[k..] == [open[k]] + open[k + 1..];
  }

  lemma NamedStill(slots: seq<Entry32>, slots': seq<Entry32>, files: map<File, nat>, names: map<File, Name11>, i: nat)
    requires Named(slots, files, names) && OneSlot(slots, slots', i) && i < |slots| && StillUsed(slots[i], slots'[i])
    ensures Named(slots', files, names)
  {
    hide HasBit, IsFree;
  }

  lemma CalmWithout(s: Session, f: File, alone: bool)
    requires s.Calm(alone)
    ensures s.Without(f).Calm(alone)
  {
    hide InArea, File.Home;
  }

  lemma CalmAs(s: Session, t: Session, alone: bool)
    requires s.Calm(alone) && t.files == s.files
    ensures t.Calm(alone)
  {
    hide InArea, File.Home;
  }

  /** What is left when f is closed. */
  lemma RestOf(s: Session, f: File, t: Session)
    requires f in s.files && (t == s.Without(f) || t == s.Lost(f))
    ensures t.dj == s.dj && t.files == s.files - {f} == s.Without(f).files
    ensures forall j :: j in s.owners && j != Owner(s.files[f]) ==> j in t.owners && t.owners[j] == s.owners[j]
    ensures t == s.Without(f) ==> t.owners == s.owners
  {
  }

  lemma SeenMeans(s: Session, sights: map<File, Sight>, f: File)
    requires s.dj.Valid() && AsSeen(s, sights) && f in s.files
    ensures AsSeen(s.Without(f), sights) && f in sights && sights[f].bytes == f.contents
    ensures sights[f].flagged == f.modified && Tellable(sights[f]) == (f.modified || f.err == Ok)
    ensures f.modified ==> EntryKnows(s, f)
  {
    hide Dir.Valid;
  }

  lemma SeenAs(s: Session, t: Session, sights: map<File, Sight>)
    requires AsSeen(s, sights) && t.files == s.files
    ensures AsSeen(t, sights)
  {
  }

  /** f_close of the next file of the list. */
  method CloseNext(ghost s: Session, f: File, tm: dword, ghost alone: bool, ghost open: seq<File>, ghost k: nat,
                   ghost files: map<File, nat>, ghost names: map<File, Name11>, ghost sights: map<File, Sight>)
    returns (ghost t: Session)
    requires s.Valid() && s.Calm(alone) && Lists(open, files) && OwnSlots(files) && k < |open| && open[k] == f
    requires RestOpen(open, k, files, s.files) && Named(s.dj.Content(), files, names) && AsSeen(s, sights)
    requires f in s.files
    requires HeldSoFar(s.dj.fs.g, s.dj.fs.Vol(), s.dj.Content(), s.owners, open, k, files, names, sights)
    modifies f.fs`disk, f.fs`wflag, f.fs`winsect, f.fs`fsiDirty, f.fs.win, f`dirty, f`modified, f`isOpen
    ensures t.Valid() && t.Calm(alone) && t.dj == s.dj
    ensures RestOpen(open, k + 1, files, t.files) && Named(t.dj.Content(), files, names) && AsSeen(t, sights)
    ensures HeldSoFar(t.dj.fs.g, t.dj.fs.Vol(), t.dj.Content(), t.owners, open, k + 1, files, names, sights)
    ensures SameBoot(s.dj.fs.g, old(s.dj.fs.Vol()), s.dj.fs.Vol())
    ensures s.dj.fs.wflag ==> old(s.dj.fs.wflag) && !old(f.modified)
  {
    hide *;
    s.CalmOthers(alone, f);
    s.Separate(f);
    RestAfter(open, k, files, s.files);
    CalmWithout(s, f, alone);
    SeenMeans(s, sights, f);
    ghost var g, vol, slots := s.dj.fs.g, s.dj.fs.Vol(), s.dj.Content();
    var res;
    res, t := CloseBeside(s, f, tm);
    RestOf(s, f, t);
    CalmAs(s.Without(f), t, alone);
    SeenAs(s.Without(f), t, sights);
    ClosedIsHeld(s, t, slots, f, files, names, sights);
    NamedStill(slots, s.dj.Content(), files, names, files[f]);
    HeldByClose(s, t, f, g, vol, slots, s.dj.fs.Vol(), s.dj.Content(), open, k, files, names, sights);
  }

  /** A file that could be told is held when it is closed. */
  lemma ClosedIsHeld(s: Session, t: Session, slots: seq<Entry32>, f: File, files: map<File, nat>,
                     names: map<File, Name11>, sights: map<File, Sight>)
    requires t.dj.Valid() && f in files && f in sights && Named(slots, files, names)
    requires OneSlot(slots, t.dj.Content(), files[f]) && StillUsed(slots[files[f]], t.dj.Content()[files[f]])
    requires Tellable(sights[f]) ==>
      && Owner(files[f]) in t.owners && t.owners[Owner(files[f])] == f.chain
      && FileAt(t.dj.fs.g, t.dj.fs.Vol(), t.dj.Content()[files[f]], f.chain, sights[f].bytes)
    ensures f in names
    ensures Tellable(sights[f]) ==>
      Held(t.dj.fs.g, t.dj.fs.Vol(), t.dj.Content(), t.owners, names[f], files[f], sights[f].bytes)
  {
    hide Dir.Valid, HasBit, IsFree, FileAt, Dir.Content;
  }

  /** f_close of all files of a list. */
  method CloseAll(open: seq<File>, tm: dword, ghost s: Session, ghost alone: bool, ghost names: map<File, Name11>)
    returns (ghost t: Session)
    requires s.Valid() && s.Calm(alone) && Lists(open, s.files) && Named(s.dj.Content(), s.files, names)
    modifies s.dj.fs`disk, s.dj.fs`wflag, s.dj.fs`winsect, s.dj.fs`fsiDirty, s.dj.fs.win, s.files.Keys
    ensures t.Valid() && t.dj == s.dj && SameBoot(s.dj.fs.g, old(s.dj.fs.Vol()), s.dj.fs.Vol())
    ensures HeldSoFar(t.dj.fs.g, t.dj.fs.Vol(), t.dj.Content(), t.owners, open, |open|, s.files, names, old(s.Sights()))
    ensures s.dj.fs.wflag ==> old(s.dj.fs.wflag) && forall f :: f in s.files ==> !old(f.modified)
  {
    hide *;
    ghost var files, sights, vol := s.files, s.Sights(), s.dj.fs.Vol();
    CloseStart(s, open, names);
    t := s;
    var k := 0;
    while k < |open|
      invariant k <= |open| && t.Valid() && t.Calm(alone) && t.dj == s.dj && SameBoot(s.dj.fs.g, vol, s.dj.fs.Vol())
      invariant RestOpen(open, k, files, t.files) && Named(t.dj.Content(), files, names) && AsSeen(t, sights)
      invariant HeldSoFar(t.dj.fs.g, t.dj.fs.Vol(), t.dj.Content(), t.owners, open, k, files, names, sights)
      invariant s.dj.fs.wflag ==>
        old(s.dj.fs.wflag) && forall j :: 0 <= j < k && open[j] in sights ==> !sights[open[j]].flagged
    {
      ghost var vol1 := s.dj.fs.Vol();
      RestAfter(open, k, files, t.files);
      SeenMeans(t, sights, open[k]);
      t := CloseNext(t, open[k], tm, alone, open, k, files, names, sights);
      SameBootTrans(s.dj.fs.g, vol, vol1, s.dj.fs.Vol());
      k := k + 1;
    }
    assert forall f :: f in s.files ==> f in open by {
      AllListed(open, s.files);
    }
  }

  lemma AllListed(open: seq<File>, files: map<File, nat>)
    requires Lists(open, files)
    ensures forall f :: f in files ==> f in open
  {
  }

  lemma DistinctSlots(s: Session)
    requires s.Distinct()
    ensures OwnSlots(s.files)
  {
  }

  lemma CloseStart(s: Session, open: seq<File>, names: map<File, Name11>)
    requires s.Valid() && Lists(open, s.files)
    ensures RestOpen(open, 0, s.files, s.files) && AsSeen(s, s.Sights()) && OwnSlots(s.files)
    ensures HeldSoFar(s.dj.fs.g, s.dj.fs.Vol(), s.dj.Content(), s.owners, open, 0, s.files, names, s.Sights())
    ensures forall f :: f in s.files ==> f.fs == s.dj.fs && f in s.Sights() && s.Sights()[f].flagged == f.modified
    ensures s.dj.Valid()
    ensures SameBoot(s.dj.fs.g, s.dj.fs.Vol(), s.dj.fs.Vol())
  {
    hide Dir.Valid, Session.Ordered, Session.Valid, Session.Distinct, Slotted, Dir.Content, Volume.Vol, Held, Owned,
         WellFormed, Holds, Session.Closed, Session.SameOwners, Catalog, OwnSlots;
    s.InOrder();
    DistinctSlots(s);
    BootThere(s.dj.fs.g);
    assert open[0..] == open;
  }

  /** What the open files are called. */
  lemma NamesFit(s: Session, names: map<File, Name11>)
    requires s.Valid() && (forall f :: f in s.files ==> f in names && s.files[f] < |s.dj.Content()|)
    requires forall f :: f in s.files ==> names[f] == s.dj.Content()[s.files[f]][..11]
    ensures Named(s.dj.Content(), s.files, names)
  {
    hide Dir.Valid, Session.Valid, HasBit, Dir.Content, Slotted, Session.Distinct, Session.Ordered, WellFormed, Owned;
    forall f | f in s.files
      ensures !HasBit(s.dj.Content()[s.files[f]][DIR_ATTR], AM_DIR)
    {
      s.Separate(f);
    }
  }

  lemma NamedAfterRun(slots: seq<Entry32>, slots': seq<Entry32>, files: map<File, nat>, names: map<File, Name11>)
    requires Named(slots, files, names) && OpenSlotsOnly(slots, slots', files.Values)
    ensures Named(slots', files, names)
  {
    hide HasBit, IsFree;
  }

  /** What holds in front of a run decides whether a file is durable after it. */
  lemma DurableRun(csize: nat, calls: seq<Request>, answers: seq<Answer>, scenes: seq<Scene>, f: File)
    requires Trace(csize, calls, answers, scenes) && f in scenes[0].files
    ensures f in scenes[|answers|].files
    ensures scenes[0].files[f].flagged && NeverSynced(calls, |answers|, f) ==> Durable(scenes[|answers|], f)
    ensures !scenes[0].store.damaged && Settled(scenes[0]) && scenes[0].files[f].err == Ok ==>
      Durable(scenes[|answers|], f)
  {
    hide Trace;
    FilesStay(csize, calls, answers, scenes, |answers|);
    if scenes[0].files[f].flagged && NeverSynced(calls, |answers|, f) {
      FlagStays(csize, calls, answers, scenes, |answers|, f);
    }
    if !scenes[0].store.damaged && Settled(scenes[0]) {
      UndamagedRun(csize, calls, answers, scenes, |answers|);
      SettledRun(csize, calls, answers, scenes, |answers|);
    }
  }

  /** f_sync is not called on f in the first n calls. */
  ghost predicate NeverSynced(calls: seq<Request>, n: nat, f: File) {
    forall k :: 0 <= k < n && k < |calls| && calls[k].f == f ==> !calls[k].call.SyncCall?
  }

  lemma SightInRun(s: Session, t: Session, f: File)
    requires s.Continues(t) && f in s.files && t.dj.fs.Attached()
    ensures t.dj == s.dj && t.files == s.files && t.Seen().files == t.Sights() && f in t.Sights()
    ensures t.Sights()[f] == SightOf(f) && t.Seen().store.waiting == t.dj.fs.wflag
    ensures forall h :: h in t.files ==> h in t.Sights() && t.Sights()[h].flagged == h.modified
    ensures forall h :: h in t.Sights() ==> h in t.files
  {
  }

  lemma HeldInList(t: Session, open: seq<File>, files: map<File, nat>, names: map<File, Name11>,
                   sights: map<File, Sight>, f: File)
    requires t.dj.Valid() && Lists(open, files) && f in files && f in sights && f in names && Tellable(sights[f])
    requires HeldSoFar(t.dj.fs.g, t.dj.fs.Vol(), t.dj.Content(), t.owners, open, |open|, files, names, sights)
    ensures HeldAs(t, names[f], files[f], sights[f].bytes)
  {
    hide Held, Dir.Valid;
    var j :| 0 <= j < |open| && open[j] == f;
  }
  /** Calls on open files, and f_close of all of them. */
  method RunAndClose(calls: seq<Request>, alone: bool, open: seq<File>, f: File, ghost name: Name11, tm: dword,
                     ghost s: Session)
    returns (answers: seq<Answer>, told: bool, ghost t: Session, ghost scenes: seq<Scene>)
    requires s.Valid() && s.Calm(alone) && Lists(open, s.files) && f in s.files
    requires forall m :: 0 <= m < |calls| ==> calls[m].f in s.files
    requires s.files[f] < |s.dj.Content()| && s.dj.Content()[s.files[f]][..11] == name
    modifies s.dj.fs`disk, s.dj.fs`wflag, s.dj.fs`winsect, s.dj.fs`freeClst, s.dj.fs`lastClst, s.dj.fs`fsiDirty
    modifies s.dj.fs.win, s.files.Keys, set h | h in s.files :: h.buf
    ensures t.Valid() && t.dj == s.dj && SameBoot(s.dj.fs.g, old(s.dj.fs.Vol()), s.dj.fs.Vol())
    ensures Trace(s.dj.fs.g.csize, calls, answers, scenes) && scenes[0] == old(s.Seen())
    ensures |answers| < |calls| ==> !alone
    ensures f.fs == s.dj.fs && f in scenes[0].files && f in scenes[|answers|].files
    ensures told == Tellable(scenes[|answers|].files[f])
    ensures told ==> HeldAs(t, name, s.files[f], scenes[|answers|].files[f].bytes)
    ensures Durable(scenes[|answers|], f) ==> told && !f.fs.wflag
  {
    hide Volume.Valid, Volume.Vol, Dir.Valid, File.Valid, Dir.Content, SameBoot, WellFormed, Owned, FileAt, Trace,
         OpenSlotsOnly, IsFree, HasBit, Named, Lists, HeldSoFar, Damaged, CountRight, FreeCount;
    hide Session.Valid, Session.Calm, Session.Ordered, Session.Distinct, Session.Spares, Session.OthersHome,
         Session.Closed, Slotted, Holds, Apart, HeldAs, MayLoseHome;
    s.UsedSlots();
    ghost var vol, slots := s.dj.fs.Vol(), s.dj.Content();
    ghost var names := map h | h in s.files :: slots[s.files[h]][..11];
    NamesFit(s, names);
    s.Separate(f);
    answers, t, scenes := RunCalls(calls, s, alone);
    SightInRun(s, t, f);
    NamedAfterRun(slots, t.dj.Content(), s.files, names);
    ghost var vol1 := s.dj.fs.Vol();
    told := f.modified || f.err == Ok;
    t := CloseAll(open, tm, t, alone, names);
    SameBootTrans(s.dj.fs.g, vol, vol1, s.dj.fs.Vol());
    if told {
      HeldInList(t, open, s.files, names, scenes[|answers|].files, f);
    }
  }

  /**
    Durability of any run: calls on open files, f_close of all of them, a fresh
    mount, f_open and f_read of one of them give back exactly the bytes its user
    saw last, if its entry can be told and the window does not wait alone.  So it
    is for a file with the modified flag that is not synchronized in the run, and
    for every file that was in order before a run on a table without error values.
    */
  method RunThenRead(calls: seq<Request>, alone: bool, open: seq<File>, f: File, sclust: nat, name: Name11, tm: dword,
                     ghost s: Session)
    returns (answers: seq<Answer>, res: Result, data: seq<byte>, ghost scenes: seq<Scene>)
    requires s.Valid() && s.Calm(alone) && Lists(open, s.files) && f in s.files
    requires forall m :: 0 <= m < |calls| ==> calls[m].f in s.files
    requires s.dj.sclust == sclust && s.files[f] < |s.dj.Content()| && s.dj.Content()[s.files[f]][..11] == name
    requires Bootable(s.dj.fs.Vol(), s.dj.fs.g)
    modifies s.dj.fs`disk, s.dj.fs`wflag, s.dj.fs`winsect, s.dj.fs`freeClst, s.dj.fs`lastClst, s.dj.fs`fsiDirty
    modifies s.dj.fs.win, s.files.Keys, set h | h in s.files :: h.buf
    ensures Trace(s.dj.fs.g.csize, calls, answers, scenes) && scenes[0] == old(s.Seen()) && f in scenes[|answers|].files
    ensures |answers| < |calls| ==> !alone
    ensures Durable(scenes[|answers|], f) ==> res == Ok && data == scenes[|answers|].files[f].bytes
    ensures old(f.modified) && NeverSynced(calls, |answers|, f) ==>
      res == Ok && data == scenes[|answers|].files[f].bytes
    ensures !old(Damaged(s.dj.fs.FatSeq())) && Settled(scenes[0]) && old(f.err) == Ok ==>
      res == Ok && data == scenes[|answers|].files[f].bytes
  {
    hide Volume.Valid, Volume.Vol, Dir.Valid, File.Valid, Dir.Content, SameBoot, WellFormed, Owned, Bootable, OnDisk,
         FileAt, Trace, Lists, Damaged, CountRight, FreeCount, Tellable, Durable;
    hide Session.Valid, Session.Calm, Session.Ordered, Session.Distinct, Slotted, HeldAs, Settled, NeverSynced;
    ghost var t, vol := s, s.dj.fs.Vol();
    var told;
    answers, told, t, scenes := RunAndClose(calls, alone, open, f, name, tm, s);
    DurableRun(s.dj.fs.g.csize, calls, answers, scenes, f);
    res, data := IntErr, [];
    if told && !f.fs.wflag {
      BootableKept(s.dj.fs.g, vol, s.dj.fs.Vol());
      HeldOnDisk(t, name, s.files[f], scenes[|answers|].files[f].bytes);
      res, data := ReadBack(f.fs.disk, f.fs.g, f.fs.g.volbase, sclust, name, t.dj.chain,
                            t.owners[Owner(s.files[f])], scenes[|answers|].files[f].bytes);
    }
  }
}
