/**
  Several files open at the same time in one directory: what each of them sees,
  whatever sequence of calls is made on them, and what the volume owns.
  */
module Sessions {
  import opened Bytes
  import opened Geometry
  import opened FatTable
  import opened FileSystem
  import opened Chains
  import opened Allocation
  import opened FileData
  import opened Entries
  import opened Directory
  import opened DirTable
  import opened Directories
  import opened Files
  import opened Others
  import opened Operations
  import opened MakeDir

  type Piece = data: seq<byte> | |data| < 0x1_0000_0000

  /** A call on an open file. */
  datatype Call =
    | WriteCall(data: Piece)
    | ReadCall(count: nat)
    | SeekCall(ofs: dword)
    | TruncateCall
    | SyncCall(tm: dword)

  /** What it gives back: the result and the bytes written or read. */
  datatype Answer = Answer(res: Result, count: nat, data: seq<byte>)

  /**
    What the user of a file sees of it: a sequence of bytes and a cursor, whether
    it was aborted, and what it was opened for; and what he can keep count of,
    whether it waits for f_sync and how many clusters it has.
    */
  datatype Sight = Sight(bytes: seq<byte>, at: dword, err: Result, reading: bool, writing: bool,
                         flagged: bool, clusters: nat)

  ghost function SightOf(f: File): Sight
    reads f
  {
    Sight(f.contents, f.fptr, f.err, f.canRead, f.canWrite, f.modified, |f.chain|)
  }

  /** The result of a call that needs nothing from the volume. */
  function Verdict(a: Sight, allowed: bool): Result {
    if a.err != Ok then a.err else if !allowed then Denied else Ok
  }

  /** Where f_lseek goes: a file opened for reading only does not grow. */
  function SeekTarget(a: Sight, ofs: nat): nat {
    if ofs > |a.bytes| && !a.writing then |a.bytes| else ofs
  }

  /** What a call may answer and do. */
  ghost predicate Follows(call: Call, a: Sight, r: Answer, b: Sight) {
    && b.reading == a.reading && b.writing == a.writing
    && match call
      case WriteCall(data) =>
        if Verdict(a, a.writing) != Ok then r.res == Verdict(a, a.writing) && r.count == 0 && b == a
        else
          && a.at <= |a.bytes| && r.count <= |data| && b.at == a.at + r.count
          && b.bytes == Splice(a.bytes, a.at, data[..r.count])
          && b.err == r.res && (r.res == Ok || r.res == IntErr) && b.flagged == (a.flagged || r.res == Ok)
      case ReadCall(count) =>
        && r.res == Verdict(a, a.reading) && b == a.(at := b.at)
        && (if r.res == Ok then
              && a.at <= b.at == (if count > |a.bytes| - a.at then |a.bytes| else a.at + count)
              && r.data == a.bytes[a.at..b.at]
            else r.data == [] && b.at == a.at)
      case SeekCall(ofs) =>
        if a.err != Ok then r.res == a.err && b == a
        else
          && b.err == r.res && (r.res == Ok || r.res == IntErr)
          && (if r.res == Ok then
                && a.bytes <= b.bytes && |b.bytes| == (if b.at > |a.bytes| then b.at else |a.bytes|)
                && (b.at == SeekTarget(a, ofs) || |a.bytes| <= b.at < SeekTarget(a, ofs))
                && b.flagged == (a.flagged || b.at > |a.bytes|)
              else b.bytes == a.bytes && b.flagged == a.flagged)
      case TruncateCall =>
        && r.res == Verdict(a, a.writing)
        && b == if r.res == Ok && a.at < |a.bytes| then
            a.(bytes := a.bytes[..a.at], flagged := true, clusters := b.clusters)
          else a
      case SyncCall(_) => r.res == Ok && b == a.(flagged := false)
  }

  /**
    What all users share: how many clusters are free, the cached number of them
    and whether it can be relied on, whether the table has error values, and
    whether the window waits to be written.
    */
  datatype Store = Store(free: nat, known: dword, right: bool, damaged: bool, waiting: bool)
  {
    predicate Sound() {
      right && !damaged
    }

    /** No cluster is to be had. */
    predicate Spent() {
      known == 0 || free == 0
    }
  }

  ghost function StoreOf(fs: Volume): Store
    requires fs.Attached()
    reads fs, fs.win
  {
    Store(FreeCount(fs.FatSeq()), fs.freeClst, CountRight(fs.freeClst, fs.FatSeq()), Damaged(fs.FatSeq()), fs.wflag)
  }

  /** The clusters of a file that has c of them and is to have goal, when so many are free. */
  function ClustersHad(c: nat, goal: nat, free: nat): nat {
    if goal <= c then c else Least(goal, c + free)
  }

  /** A cursor on its way to end: on a sound volume it gets there or to the end of all that is free. */
  ghost predicate MovesTo(csize: nat, x: Sight, end: nat, res: Result, y: Sight, a: Store, b: Store) {
    && (a.Sound() ==>
          && csize > 0 && y.at == Least(end, Bound(csize, x.clusters + a.free))
          && y.clusters == ClustersHad(x.clusters, ClustersFor(csize, end), a.free))
    && (res == Ok && y.at < end ==> b.Spent())
  }

  /**
    What a call costs: clusters are not lost or made, a right count stays right,
    error values do not appear and abort nothing where there are none; the window
    is left waiting only with the file, and not by f_sync; and how far f_write and
    f_lseek get.
    */
  ghost predicate Costs(csize: nat, call: Call, x: Sight, r: Answer, y: Sight, a: Store, b: Store) {
    && y.clusters + b.free == x.clusters + a.free && (a.right ==> b.right)
    && (!a.damaged ==> !b.damaged && y.err == x.err)
    && (b.waiting ==> a.waiting || y.flagged || y.err != x.err) && (call.SyncCall? && x.flagged ==> !b.waiting)
    && match call
      case WriteCall(data) =>
        if Verdict(x, x.writing) == Ok then MovesTo(csize, x, x.at + WriteLength(x.at, |data|), r.res, y, a, b)
        else y.clusters == x.clusters
      case SeekCall(ofs) =>
        if x.err == Ok then MovesTo(csize, x, SeekTarget(x, ofs), r.res, y, a, b) else y.clusters == x.clusters
      case TruncateCall =>
        if r.res == Ok && x.at < |x.bytes| then csize > 0 && y.clusters == ClustersFor(csize, x.at)
        else y.clusters == x.clusters
      case _ => y.clusters == x.clusters
  }

  /** What a call on f costs, in the two states around it. */
  twostate predicate Paid(f: File, call: Call, r: Answer)
    requires f.fs.Attached() && old(f.fs.Attached())
    reads f, f.fs, f.fs.win
  {
    Costs(f.fs.g.csize, call, old(SightOf(f)), r, SightOf(f), old(StoreOf(f.fs)), StoreOf(f.fs))
  }

  method DoRead(f: File, count: nat) returns (r: Answer)
    requires f.Valid() && f.isOpen
    modifies f.fs`disk, f.fs`wflag, f.fs`winsect, f.fs.win, f.buf, f`clust, f`dirty, f`sect, f`fptr
    ensures f.Valid() && f.Quiet() && Follows(ReadCall(count), old(SightOf(f)), r, SightOf(f))
    ensures Paid(f, ReadCall(count), r)
    ensures f.OnlyThisFile(old(f.fs.Vol())) && f.fs.FatSeq() == old(f.fs.FatSeq())
    ensures ChainStep(old(f.fs.FatSeq()), f.chain, f.fs.FatSeq(), f.chain, f.chain)
    ensures f.fs.winsect == old(f.fs.winsect) || f.fs.g.InFat1(f.fs.winsect)
    ensures f.sect == old(f.sect) || f.sect in f.Secs()
    ensures old(f.Home()) ==> f.Home()
  {
    hide Volume.Valid, Volume.Vol, Fat, Sectors, OnlyChain, Extended, Cut, File.Core, File.OnCluster, File.OnSector,
         File.Home, CountRight, Damaged, FreeCount;
    f.CoreChain();
    ExtendedRefl(f.fs.FatSeq(), f.chain);
    var res, data := f.Read(count);
    r := Answer(res, |data|, data);
  }

  method DoTruncate(f: File) returns (r: Answer)
    requires f.Valid() && f.isOpen
    modifies f.fs`disk, f.fs`wflag, f.fs`winsect, f.fs`freeClst, f.fs`fsiDirty, f.fs.win
    modifies f`sclust, f`chain, f`dirty, f`objsize, f`contents, f`modified
    ensures f.Valid() && f.Quiet() && Follows(TruncateCall, old(SightOf(f)), r, SightOf(f))
    ensures Paid(f, TruncateCall, r)
    ensures InArea(f.fs.g, old(f.chain)) && OnlyChain(f.fs.g, old(f.fs.Vol()), f.fs.Vol(), old(f.chain))
    ensures ChainStep(old(f.fs.FatSeq()), old(f.chain), f.fs.FatSeq(), f.chain, old(f.chain))
    ensures f.fs.winsect == old(f.fs.winsect) || f.fs.g.InFat1(f.fs.winsect)
    ensures old(f.Home()) && old(f.StaysHome()) ==> f.Home()
  {
    hide Volume.Valid, Volume.Vol, Fat, Sectors, OnlyChain, Extended, Cut, CountRight, File.Core, File.OnCluster,
         File.OnSector, RunLength, Damaged, FreeCount, ClustersFor;
    ghost var fat, ch := f.fs.FatSeq(), f.chain;
    f.CoreChain();
    CutNothing(fat, ch);
    f.BufferNumber();
    var res := f.Truncate();
    assert ch[..|ch|] == ch;
    r := Answer(res, 0, []);
    StepCounted(fat, ch, f.fs.FatSeq(), f.chain, ch);
  }

  /** The clusters f_write needs. */
  ghost function Needed(f: File, n: nat): nat
    requires f.fs.g.csize > 0
    reads f
  {
    ClustersFor(f.fs.g.csize, f.fptr + WriteLength(f.fptr, n))
  }

  /** How far growing takes a file of c clusters on a sound volume: to end, or to the end of all that is free. */
  lemma RoomReaches(csize: nat, c: nat, free: nat, end: nat, reached: bool, c': nat, at: nat)
    requires csize > 0 && reached == (ClustersFor(csize, end) <= c + free)
    requires c' == if ClustersFor(csize, end) <= c then c else if reached then ClustersFor(csize, end) else c + free
    requires at == if reached then end else Bound(csize, c')
    ensures at == Least(end, Bound(csize, c + free)) && c' == ClustersHad(c, ClustersFor(csize, end), free)
  {
    hide Bound, ClustersFor;
    ClustersFit(csize, end, c + free);
  }

  /** Nothing has changed but the table, a chain that may have grown, and its sectors. */
  twostate predicate OnlyGrown(f: File)
    requires f.Valid() && old(f.Valid())
    reads f, f.buf, f.fs, f.fs.win
  {
    && f.OnlyThisFile(old(f.fs.Vol())) && Extended(old(f.fs.FatSeq()), old(f.chain), f.fs.FatSeq(), f.chain)
    && (f.fs.winsect == old(f.fs.winsect) || f.fs.g.InFat1(f.fs.winsect))
    && (f.sect == old(f.sect) || f.sect in f.Secs()) && (old(f.Home()) ==> f.Home())
  }

  /** What growing came to, and what the write made of it. */
  twostate predicate GrownFor(f: File, n: nat, r: Answer, room: Growth)
    requires f.Valid() && old(f.Valid())
    reads f, f.buf, f.fs, f.fs.win
  {
    if old(f.err) == Ok && f.canWrite then
      && room == old(f.Room(Needed(f, n))) == f.Now(room.end) && (room.end == BadEntry <==> f.err != Ok)
      && f.fptr == old(f.fptr) + r.count && (r.count == old(WriteLength(f.fptr, n)) <==> room.end == Reached)
      && (room.end != Reached ==> f.fptr == Bound(f.fs.g.csize, |f.chain|))
      && (room.end == NoRoom ==> f.NoSpace())
    else
      r.count == 0 && f.err == old(f.err) && f.fptr == old(f.fptr)
  }

  /** f_write, with what growing the chain came to. */
  method WriteAndGrow(f: File, data: Piece) returns (r: Answer, ghost room: Growth)
    requires f.Valid() && f.isOpen
    modifies f.fs`disk, f.fs`wflag, f.fs`winsect, f.fs`freeClst, f.fs`lastClst, f.fs`fsiDirty, f.fs.win
    modifies f.buf, f`sclust, f`clust, f`chain, f`dirty, f`err, f`sect, f`fptr, f`objsize, f`contents, f`modified
    ensures f.Valid() && f.Quiet() && Follows(WriteCall(data), old(SightOf(f)), r, SightOf(f)) && OnlyGrown(f)
    ensures old(CountRight(f.fs.freeClst, f.fs.FatSeq())) ==> CountRight(f.fs.freeClst, f.fs.FatSeq())
    ensures f.FlaggedBy(|data|, r.res) && f.AbortedBy(|data|, r.count)
    ensures old(f.Barren()) ==> r.count == 0 && f.Barren()
    ensures GrownFor(f, |data|, r, room)
  {
    hide Volume.Valid, Volume.Vol, Fat, Sectors, OnlyChain, Extended, CountRight, FileState, File.OnCluster,
         File.OnSector, File.Home, File.Room, Splice, Damaged, FreeCount, Choice, ClustersFor, Bound, File.AbortedBy,
         File.NoSpace;
    room := f.Now(Reached);
    if f.err == Ok {
      room := f.Room(Needed(f, |data|));
    }
    var res, bw := f.Write(data);
    r := Answer(res, bw, []);
  }

  /** A file that was called leaves the window waiting only if it waited, or waits itself. */
  twostate lemma QuietWaits(f: File)
    requires f.Quiet()
    ensures f.fs.wflag ==> old(f.fs.wflag) || f.modified || f.err != old(f.err)
  {
  }

  /** f_write, and what it costs. */
  method WritePaid(f: File, data: Piece) returns (r: Answer, ghost room: Growth)
    requires f.Valid() && f.isOpen
    modifies f.fs`disk, f.fs`wflag, f.fs`winsect, f.fs`freeClst, f.fs`lastClst, f.fs`fsiDirty, f.fs.win
    modifies f.buf, f`sclust, f`clust, f`chain, f`dirty, f`err, f`sect, f`fptr, f`objsize, f`contents, f`modified
    ensures f.Valid() && f.Quiet() && Follows(WriteCall(data), old(SightOf(f)), r, SightOf(f)) && OnlyGrown(f)
    ensures Paid(f, WriteCall(data), r) && GrownFor(f, |data|, r, room)
    ensures f.FlaggedBy(|data|, r.res) && f.AbortedBy(|data|, r.count)
    ensures old(f.Barren()) ==> r.count == 0 && f.Barren()
  {
    hide Volume.Valid, Volume.Vol, Volume.FatSeq, Fat, Sectors, OnlyChain, Extended, CountRight, FileState;
    hide File.OnCluster, File.OnSector, File.Core, File.Home, File.Room, Damaged, FreeCount, ClustersFor, Bound,
         Follows, File.Barren, File.AbortedBy, ClustersHad, File.Quiet, Least, WriteLength;
    ghost var fat, ch := f.fs.FatSeq(), f.chain;
    f.CoreChain();
    f.AbortsWhenDamaged(|data|);
    if f.err == Ok && f.Sound() {
      f.RoomFits(Needed(f, |data|));
    }
    r, room := WriteAndGrow(f, data);
    QuietWaits(f);
    StepCounted(fat, ch, f.fs.FatSeq(), f.chain, f.chain);
    FullCount(f.fs.FatSeq());
    if old(f.err == Ok && f.canWrite && f.Sound()) {
      RoomReaches(f.fs.g.csize, |ch|, old(FreeCount(f.fs.FatSeq())), old(f.fptr + WriteLength(f.fptr, |data|)),
                  room.end == Reached, |f.chain|, f.fptr);
    }
    MovePays(f.fs.g.csize, WriteCall(data), old(SightOf(f)), r, SightOf(f), old(StoreOf(f.fs)), StoreOf(f.fs),
             old(f.fptr + WriteLength(f.fptr, |data|)));
  }

  /** What f_write and f_lseek cost, from what they do to the store and how far they get. */
  lemma MovePays(csize: nat, call: Call, x: Sight, r: Answer, y: Sight, a: Store, b: Store, end: nat)
    requires call.WriteCall? || call.SeekCall?
    requires Follows(call, x, r, y) && y.clusters + b.free == x.clusters + a.free && (a.right ==> b.right)
    requires !a.damaged ==> !b.damaged && y.err == x.err
    requires b.waiting ==> a.waiting || y.flagged || y.err != x.err
    requires match call
      case WriteCall(data) => Verdict(x, x.writing) == Ok ==> end == x.at + WriteLength(x.at, |data|)
      case SeekCall(ofs) => end == SeekTarget(x, ofs)
      case _ => true
    requires x.err == Ok && (call.WriteCall? ==> x.writing) ==> MovesTo(csize, x, end, r.res, y, a, b)
    ensures Costs(csize, call, x, r, y, a, b)
  {
    hide MovesTo, Splice, WriteLength, SeekTarget;
  }

  /** f_write, and how much it stores. */
  method DoWrite(f: File, data: Piece) returns (r: Answer)
    requires f.Valid() && f.isOpen
    modifies f.fs`disk, f.fs`wflag, f.fs`winsect, f.fs`freeClst, f.fs`lastClst, f.fs`fsiDirty, f.fs.win
    modifies f.buf, f`sclust, f`clust, f`chain, f`dirty, f`err, f`sect, f`fptr, f`objsize, f`contents, f`modified
    ensures f.Valid() && f.Quiet() && Follows(WriteCall(data), old(SightOf(f)), r, SightOf(f)) && OnlyGrown(f)
    ensures Paid(f, WriteCall(data), r) && f.WrittenBy(|data|, r.res, r.count)
  {
    hide Volume.Valid, Volume.Vol, Volume.FatSeq, Fat, CountRight, FileState, OnlyGrown, Paid;
    hide File.OnCluster, File.OnSector, File.Core, File.Room, Choice, ClustersFor, Bound,
         Follows, File.Quiet, File.Barren, File.AbortedBy;
    if f.err == Ok {
      f.RoomStops(Needed(f, |data|));
      f.AtCursor();
      if f.fptr == Bound(f.fs.g.csize, |f.chain|) && f.NoMore() {
        f.StuckHere(WriteLength(f.fptr, |data|));
      }
    }
    ghost var room;
    r, room := WritePaid(f, data);
  }

  /** What growing came to when a file was to reach target. */
  twostate predicate SoughtFor(f: File, target: nat, res: Result)
    requires f.Valid() && old(f.Valid())
    reads f, f.buf, f.fs, f.fs.win
  {
    && f.fs.g.csize > 0
    && old(f.Room(ClustersFor(f.fs.g.csize, target))) ==
         f.Now(if res != Ok then BadEntry else if f.fptr == target then Reached else NoRoom)
    && (res == Ok && f.fptr != target ==> f.fptr == Bound(f.fs.g.csize, |f.chain|) && f.NoSpace())
    && (res != Ok ==> Damaged(f.fs.FatSeq()))
  }

  /** f_lseek, with what growing the chain came to. */
  method SeekAndGrow(f: File, ofs: dword, ghost target: nat) returns (r: Answer)
    requires f.Valid() && f.isOpen && target == SeekTarget(SightOf(f), ofs)
    modifies f.fs`disk, f.fs`wflag, f.fs`winsect, f.fs`freeClst, f.fs`lastClst, f.fs`fsiDirty, f.fs.win
    modifies f.buf, f`sclust, f`clust, f`chain, f`dirty, f`err, f`sect, f`fptr, f`objsize, f`contents, f`modified
    ensures f.Valid() && f.Quiet() && Follows(SeekCall(ofs), old(SightOf(f)), r, SightOf(f)) && OnlyGrown(f)
    ensures old(CountRight(f.fs.freeClst, f.fs.FatSeq())) ==> CountRight(f.fs.freeClst, f.fs.FatSeq())
    ensures old(f.err) == Ok ==> SoughtFor(f, target, r.res)
  {
    hide Volume.Valid, Volume.Vol, Fat, Sectors, OnlyChain, Extended, CountRight, FileState, File.Core;
    hide File.OnCluster, File.OnSector, File.Home, File.Room, Damaged, ClustersFor, Bound, File.Quiet, File.NoSpace;
    var res := f.Seek(ofs);
    r := Answer(res, 0, []);
  }

  /** f_lseek, and how far it gets. */
  method DoSeek(f: File, ofs: dword) returns (r: Answer)
    requires f.Valid() && f.isOpen
    modifies f.fs`disk, f.fs`wflag, f.fs`winsect, f.fs`freeClst, f.fs`lastClst, f.fs`fsiDirty, f.fs.win
    modifies f.buf, f`sclust, f`clust, f`chain, f`dirty, f`err, f`sect, f`fptr, f`objsize, f`contents, f`modified
    ensures f.Valid() && f.Quiet() && Follows(SeekCall(ofs), old(SightOf(f)), r, SightOf(f)) && OnlyGrown(f)
    ensures Paid(f, SeekCall(ofs), r)
  {
    hide Volume.Valid, Volume.Vol, Volume.FatSeq, Fat, Sectors, OnlyChain, Extended, CountRight, FileState, File.Core;
    hide File.OnCluster, File.OnSector, File.Home, File.Room, Damaged, FreeCount, ClustersFor,
         Bound, Least, ClustersHad, File.Quiet, Follows;
    ghost var fat, ch, target := f.fs.FatSeq(), f.chain, SeekTarget(SightOf(f), ofs);
    f.CoreChain();
    if f.err == Ok && f.Sound() {
      f.RoomFits(ClustersFor(f.fs.g.csize, target));
    }
    r := SeekAndGrow(f, ofs, target);
    QuietWaits(f);
    StepCounted(fat, ch, f.fs.FatSeq(), f.chain, f.chain);
    FullCount(f.fs.FatSeq());
    SeekErr(SightOf(f), ofs, old(SightOf(f)), r);
    if old(f.err == Ok && f.Sound()) {
      RoomReaches(f.fs.g.csize, |ch|, old(FreeCount(f.fs.FatSeq())), target, f.fptr == target, |f.chain|, f.fptr);
    }
    MovePays(f.fs.g.csize, SeekCall(ofs), old(SightOf(f)), r, SightOf(f), old(StoreOf(f.fs)), StoreOf(f.fs), target);
  }

  lemma SeekErr(y: Sight, ofs: dword, x: Sight, r: Answer)
    requires Follows(SeekCall(ofs), x, r, y)
    ensures if x.err == Ok then y.err == r.res else y == x
  {
  }

  /**
    A call on an open file: what its user sees is that of a plain sequence of bytes;
    only its own clusters are touched.
    */
  method Do(f: File, call: Call) returns (r: Answer, ghost touched: seq<nat>)
    requires f.Valid() && f.isOpen && !call.SyncCall?
    modifies f.fs`disk, f.fs`wflag, f.fs`winsect, f.fs`freeClst, f.fs`lastClst, f.fs`fsiDirty, f.fs.win
    modifies f.buf, f`sclust, f`clust, f`chain, f`dirty, f`err, f`sect, f`fptr, f`objsize, f`contents, f`modified
    ensures f.Valid() && f.Quiet() && Follows(call, old(SightOf(f)), r, SightOf(f)) && Paid(f, call, r)
    ensures call.WriteCall? ==> f.WrittenBy(|call.data|, r.res, r.count)
    ensures InArea(f.fs.g, touched) && OnlyChain(f.fs.g, old(f.fs.Vol()), f.fs.Vol(), touched)
    ensures ChainStep(old(f.fs.FatSeq()), old(f.chain), f.fs.FatSeq(), f.chain, touched)
    ensures touched == f.chain || touched == old(f.chain)
    ensures f.fs.winsect == old(f.fs.winsect) || f.fs.g.InFat1(f.fs.winsect)
    ensures f.sect == old(f.sect) || f.sect in f.Secs()
    ensures old(f.Home()) && (call.TruncateCall? ==> old(f.StaysHome())) ==> f.Home()
  {
    hide Volume.Valid, Volume.Vol, Fat, Sectors, OnlyChain, Extended, Cut, CountRight, File.Core, File.OnCluster,
         File.OnSector, File.Home, File.StaysHome, File.WrittenBy, Paid, Follows, File.Quiet;
    ghost var ch := f.chain;
    match call
    case WriteCall(data) =>
      r := DoWrite(f, data);
      touched := f.chain;
    case ReadCall(count) =>
      r := DoRead(f, count);
      touched := f.chain;
    case SeekCall(ofs) =>
      r := DoSeek(f, ofs);
      touched := f.chain;
    case TruncateCall =>
      r := DoTruncate(f);
      touched := ch;
  }

  // ---- who owns what

  /**
    Number of the owner in slot i; the directory itself is owner 0, and objects
    elsewhere have numbers above all slots.
    */
  function Owner(i: nat): nat {
    i + 1
  }

  function StartOf(ch: seq<nat>): nat {
    if ch == [] then 0 else ch[0]
  }

  /** A used entry: its object has the chain ch, and it tells so unless the object is open. */
  ghost predicate Entered(t: FatType, e: Entry32, open: bool, ch: seq<nat>) {
    && !IsFree(e) && !HasBit(e[DIR_ATTR], AM_VOL) && (HasBit(e[DIR_ATTR], AM_DIR) ==> ch != [])
    && (open || LdClust(t, e) == StartOf(ch))
  }

  /** The owners in slots are what their entries tell. */
  ghost predicate Catalog(t: FatType, slots: seq<Entry32>, open: set<nat>, owners: map<nat, seq<nat>>) {
    forall i: nat :: Owner(i) in owners && i < MAX_SLOTS ==>
      i < |slots| && Entered(t, slots[i], i in open, owners[Owner(i)])
  }

  /** The entry records what a file without the modified flag has; an aborted one may have got its first clusters. */
  ghost predicate Told(t: FatType, e: Entry32, f: File)
    reads f
  {
    && (f.err == Ok && !f.modified ==> !f.dirty && FileSize(e) == f.objsize && LdClust(t, e) == f.sclust)
    && (!f.modified ==> LdClust(t, e) == f.sclust || LdClust(t, e) == 0)
  }

  /** The open file f belongs to slot i of the directory. */
  ghost predicate Slotted(dj: Dir, f: File, i: nat, owners: map<nat, seq<nat>>)
    requires f.fs == dj.fs && dj.Valid()
    reads dj, dj.fs, dj.fs.win, f, f.buf
    ensures Slotted(dj, f, i, owners) ==> f.Valid()
  {
    && f.Valid() && f.Placed() && f.isOpen
    && i < |dj.Content()| && f.dirSect == dj.Tbl()[i / SLOTS_PER_SECTOR]
    && f.dirPtr == i % SLOTS_PER_SECTOR * ENTRY_SIZE
    && Owner(i) in owners && owners[Owner(i)] == f.chain
    && !HasBit(dj.Content()[i][DIR_ATTR], AM_DIR) && Told(dj.fs.g.fsType, dj.Content()[i], f)
  }

  lemma SlotOfOwner(dj: Dir, f: File, i: nat, owners: map<nat, seq<nat>>, owners': map<nat, seq<nat>>)
    requires f.fs == dj.fs && dj.Valid() && Slotted(dj, f, i, owners)
    requires Owner(i) in owners ==> Owner(i) in owners' && owners'[Owner(i)] == owners[Owner(i)]
    ensures Slotted(dj, f, i, owners')
  {
    hide Dir.Valid, File.Valid, File.Placed, Told, HasBit, Dir.Content;
  }

  /** No slot but slot i differs. */
  ghost predicate OneSlot(slots: seq<Entry32>, slots': seq<Entry32>, i: nat) {
    |slots'| == |slots| && forall j :: 0 <= j < |slots| && j != i ==> slots'[j] == slots[j]
  }

  /** Slot i is still there, and the same. */
  ghost predicate SameSlot(slots: seq<Entry32>, slots': seq<Entry32>, i: nat) {
    i < |slots| ==> i < |slots'| && slots'[i] == slots[i]
  }

  /** The entry of a plain file, with the same name. */
  ghost predicate StillUsed(e: Entry32, e': Entry32) {
    && e'[..11] == e[..11] && !IsFree(e') && !HasBit(e'[DIR_ATTR], AM_VOL)
    && HasBit(e'[DIR_ATTR], AM_DIR) == HasBit(e[DIR_ATTR], AM_DIR)
    && HasBit(e'[DIR_ATTR], AM_RDO) == HasBit(e[DIR_ATTR], AM_RDO)
  }

  lemma CatalogSettled(t: FatType, slots: seq<Entry32>, slots': seq<Entry32>, files: map<File, nat>, owners: map<nat,
                       seq<nat>>, f: File)
    requires f in files && Catalog(t, slots, files.Values, owners) && OneSlot(slots, slots', files[f])
    requires files[f] < |slots|
    requires forall h :: h in files && h != f ==> files[h] != files[f]
    requires StillUsed(slots[files[f]], slots'[files[f]]) && !HasBit(slots[files[f]][DIR_ATTR], AM_DIR)
    ensures Catalog(t, slots', files.Values, owners)
    ensures Catalog(t, slots', (files - {f}).Values, owners - {Owner(files[f])})
    ensures Owner(files[f]) in owners && LdClust(t, slots'[files[f]]) == StartOf(owners[Owner(files[f])]) ==>
      Catalog(t, slots', (files - {f}).Values, owners)
  {
    hide HasBit, LdClust;
    forall j | j in files.Values && j != files[f]
      ensures j in (files - {f}).Values
    {
      var h :| h in files && files[h] == j;
      assert (files - {f})[h] == j;
    }
  }

  /**
    A directory, the files open in it with their slots, the chains of all owners,
    and the used clusters nobody answers for.
    */
  datatype Session = Session(dj: Dir, files: map<File, nat>, owners: map<nat, seq<nat>>, bad: set<nat>)
  {
    ghost predicate Valid()
      reads dj, dj.fs, dj.fs.win, files.Keys, set f | f in files :: f.buf
      ensures Valid() ==> dj.Valid()
    {
      Ordered() && Distinct() && forall f :: f in files ==> Slotted(dj, f, files[f], owners)
    }

    /** The directory and the owners. */
    ghost predicate Ordered()
      reads dj, dj.fs, dj.fs.win
      ensures Ordered() ==> dj.Valid()
    {
      && dj.Valid() && WellFormed(dj.Content())
      && Owned(dj.fs.FatSeq(), owners, bad) && 0 in owners && owners[0] == dj.chain
      && Catalog(dj.fs.g.fsType, dj.Content(), files.Values, owners)
    }

    /** The files have a buffer and a slot each. */
    ghost predicate Distinct() {
      && (forall f :: f in files ==> f.fs == dj.fs)
      && (forall f, h :: f in files && h in files && f != h ==> f.buf != h.buf && files[f] != files[h])
    }

    /** The owners of slots that are not open, and those elsewhere. */
    ghost predicate Closed(k: nat) {
      k in owners && k != 0 && forall f :: f in files ==> Owner(files[f]) != k
    }

    /** All closed objects keep their links and sectors. */
    ghost predicate Spares(g: Geo, vol: seq<Sector>, vol': seq<Sector>) {
      forall k :: Closed(k) ==> Spared(g, vol, vol', owners[k])
    }

    /** The buffers of the files but f show sectors of their own. */
    ghost predicate OthersHome(f: File)
      reads files.Keys
    {
      forall h :: h in files && h != f ==> InArea(h.fs.g, h.chain) && h.Home()
    }

    ghost predicate AllHome()
      reads files.Keys
    {
      forall h :: h in files ==> InArea(h.fs.g, h.chain) && h.Home()
    }

    /** The buffers of the files but f show no sector of a chain, nor of f, but one of their own. */
    ghost predicate UnhitByCall(f: File, ch: seq<nat>)
      reads files.Keys, f
    {
      && InArea(f.fs.g, ch) && InArea(f.fs.g, f.chain)
      && forall h :: h in files && h != f ==>
        InArea(h.fs.g, h.chain) && h.Untaken(Sectors(f.fs.g, ch)) && h.Untaken(f.Secs())
    }

    /** They show no sector f_sync on f may write. */
    ghost predicate UnhitBySync(f: File)
      reads files.Keys, f
    {
      && InArea(f.fs.g, f.chain)
      && forall h :: h in files && h != f ==> InArea(h.fs.g, h.chain) && h.Untaken(f.Secs() + [f.dirSect])
    }

    /** No buffer shows a sector of the directory or of added clusters. */
    ghost predicate UnhitByDir(added: seq<nat>)
      reads files.Keys, dj
    {
      && InArea(dj.fs.g, dj.chain) && InArea(dj.fs.g, added)
      && forall h :: h in files ==> InArea(h.fs.g, h.chain) && h.Untaken(dj.Tbl() + Sectors(dj.fs.g, added))
    }

    /** All three hold when the buffers show own sectors. */
    lemma HomeIsUnhit(f: File, ch: seq<nat>)
      requires InArea(f.fs.g, ch) && InArea(f.fs.g, f.chain) && OthersHome(f)
      ensures UnhitByCall(f, ch) && UnhitBySync(f)
    {
      hide Sectors, InArea, File.Home;
    }

    lemma HomeIsUnhitByDir(added: seq<nat>)
      requires InArea(dj.fs.g, dj.chain) && InArea(dj.fs.g, added) && AllHome()
      ensures UnhitByDir(added)
    {
      hide Sectors, InArea, File.Home;
    }

    /** No call on one file can disturb another: there is one only, or all buffers show own sectors. */
    ghost predicate Calm(alone: bool)
      reads files.Keys
    {
      if alone then forall f, h :: f in files && h in files ==> f == h else AllHome()
    }

    lemma CalmOthers(alone: bool, f: File)
      requires Valid() && Calm(alone) && f in files
      ensures f.Valid() && f.fs == dj.fs && OthersHome(f) && (alone || f.Home())
      ensures forall h :: h in files && h != f ==> h.buf != f.buf
    {
      hide Dir.Valid, File.Valid, File.Home, Ordered, Dir.Content;
    }

    /** All buffers show own sectors after a call on f when that of f does. */
    twostate lemma HomeAfter(f: File)
      requires old(AllHome()) && f in files && InArea(f.fs.g, f.chain) && f.Home()
      requires forall h :: h in files && h != f ==> unchanged(h)
      ensures After(f).AllHome()
    {
      hide Dir.Valid, File.Valid, Ordered, Dir.Content, Distinct, Sectors;
    }

    lemma HomesAs(t: Session)
      requires t.files == files
      ensures t.AllHome() == AllHome()
    {
    }

    twostate lemma OthersHomeAfter(f: File)
      requires f in files && old(OthersHome(f)) && forall h :: h in files && h != f ==> unchanged(h)
      ensures OthersHome(f) && After(f).OthersHome(f)
    {
      hide Dir.Valid, File.Valid, Ordered, Dir.Content, Distinct, Sectors;
    }

    lemma SameSights(t: Session)
      requires t.files == files && t.dj == dj && dj.fs.Attached()
      ensures t.Sights() == Sights() && t.Seen() == Seen()
    {
    }

    /** A call on f changes only what its own user sees. */
    twostate lemma SightsAfter(f: File)
      requires f in files && forall h :: h in files && h != f ==> unchanged(h)
      ensures f in old(Sights()) && old(Sights())[f] == old(SightOf(f))
      ensures Sights() == old(Sights())[f := SightOf(f)]
    {
    }

    /** What the users see. */
    ghost function Sights(): map<File, Sight>
      reads files.Keys
    {
      map f | f in files :: SightOf(f)
    }

    /** What they see, and what they share. */
    ghost function Seen(): Scene
      requires dj.fs.Attached()
      reads files.Keys, dj, dj.fs, dj.fs.win
    {
      Scene(Sights(), StoreOf(dj.fs))
    }

    /** The session t has the same files and the same closed objects. */
    ghost predicate Continues(t: Session) {
      && t.dj == dj && t.files == files && t.bad == bad
      && forall k :: Closed(k) ==> t.Closed(k) && t.owners[k] == owners[k]
    }

    lemma Unmoved(f: File)
      requires f in files && Owner(files[f]) in owners && owners[Owner(files[f])] == f.chain
      ensures After(f) == this
    {
    }

    lemma AfterContinues(s: Session, f: File)
      requires f in files && s.Continues(this) && Owner(files[f]) in owners
      ensures s.Continues(After(f))
    {
    }

    lemma SparesTrans(t: Session, g: Geo, vol: seq<Sector>, vol1: seq<Sector>, vol2: seq<Sector>)
      requires Continues(t) && Spares(g, vol, vol1) && t.Spares(g, vol1, vol2)
      ensures Spares(g, vol, vol2)
    {
      hide Spared;
      forall k | Closed(k)
        ensures Spared(g, vol, vol2, owners[k])
      {
        assert t.Closed(k);
        SparedTrans(g, vol, vol1, vol2, owners[k]);
      }
    }

    /** The session after the chain of f has changed. */
    ghost function After(f: File): Session
      requires f in files
      reads f
    {
      this.(owners := owners[Owner(files[f]) := f.chain])
    }

    /** The session after fp is opened for slot i. */
    ghost function With(fp: File, i: nat): Session
      reads dj, fp
    {
      var o: map<nat, seq<nat>> := owners[0 := dj.chain];
      Session(dj, files[fp := i], o[Owner(i) := fp.chain], bad)
    }

    /** The session after f is closed, */
    ghost function Without(f: File): Session {
      this.(files := files - {f})
    }

    /** or after it is closed while its entry does not tell its clusters: they are lost. */
    ghost function Lost(f: File): Session
      requires f in files
      reads f
    {
      Session(dj, files - {f}, owners - {Owner(files[f])}, bad + LinksOf(f.chain))
    }

    /** What a valid session says without its files. */
    lemma InOrder()
      requires Valid()
      ensures dj.Valid() && WellFormed(dj.Content()) && Owned(dj.fs.FatSeq(), owners, bad) && 0 in owners
      ensures owners[0] == dj.chain
      ensures Catalog(dj.fs.g.fsType, dj.Content(), files.Values, owners) && Distinct()
      ensures forall k :: k in owners ==> Holds(dj.fs.FatSeq(), owners[k])
      ensures forall k :: Closed(k) ==> k in owners
      ensures forall f :: f in files ==> f.fs == dj.fs
      ensures SameOwners(this)
    {
      hide Dir.Valid, WellFormed, Holds, Catalog, Slotted, Dir.Content, Volume.Vol, Fat;
    }

    lemma BuffersApart()
      requires Valid()
      ensures forall h :: h in files ==> h.buf != dj.fs.win
    {
      hide Dir.Valid, WellFormed, Holds, Catalog, Dir.Content, Volume.Vol, Fat, FileState, HasBit, LdClust;
    }

    /** The files of this session are in t as well, with the same chains. */
    ghost predicate SameOwners(t: Session) {
      t.dj == dj && forall h :: h in files ==>
        h in t.files && t.files[h] == files[h] &&
        (Owner(files[h]) in owners ==>
          Owner(files[h]) in t.owners && t.owners[Owner(files[h])] == owners[Owner(files[h])])
    }

    /** One more file is distinct from the others when its buffer and its slot are; the closed owners are as before. */
    lemma DistinctWith(fp: File, i: nat)
      requires Distinct() && fp.fs == dj.fs && forall h :: h in files ==> h != fp && h.buf != fp.buf && files[h] != i
      ensures 0 in With(fp, i).owners && With(fp, i).owners[0] == dj.chain && With(fp, i).bad == bad
      ensures With(fp, i).Distinct() && SameOwners(With(fp, i)) && Owner(i) in With(fp, i).owners
      ensures With(fp, i).owners[Owner(i)] == fp.chain
      ensures forall k :: With(fp, i).Closed(k) ==> k in owners && With(fp, i).owners[k] == owners[k]
    {
      var t := With(fp, i);
      assert t.files[fp] == i && forall h :: h in files ==> t.files[h] == files[h];
    }

    /** The directory is in order with one more entry, of an open file. */
    lemma OrderedWith(slots: seq<Entry32>, fp: File, i: nat, name: Name11)
      requires dj.Valid() && WellFormed(dj.Content()) && Catalog(dj.fs.g.fsType, slots, files.Values, owners)
      requires i < |dj.Content()| && OnlySlot(slots, dj.Content(), i) && PlainEntry(dj.Content()[i], name)
      requires Owned(dj.fs.FatSeq(), With(fp, i).owners, bad) && fp !in files
      ensures With(fp, i).Ordered()
    {
      hide Dir.Valid, WellFormed, Catalog, PlainEntry, Owned, Dir.Content;
      CatalogOpened(dj.fs.g.fsType, slots, dj.Content(), files, owners, fp, i, name, dj.chain, fp.chain);
    }

    /** A session is valid with one more file, */
    lemma Joined(fp: File, i: nat)
      requires With(fp, i).Ordered() && With(fp, i).Distinct() && fp.fs == dj.fs
      requires Slotted(dj, fp, i, With(fp, i).owners)
      requires Distinct() && fp !in files && forall h :: h in files ==> Slotted(dj, h, files[h], With(fp, i).owners)
      ensures With(fp, i).Valid()
    {
      hide Ordered, Distinct, Slotted, Dir.Valid;
      assert With(fp, i).files == files[fp := i];
    }

    lemma JoinedHome(fp: File, i: nat)
      requires AllHome() && fp !in files && InArea(fp.fs.g, fp.chain) && fp.Home()
      ensures With(fp, i).AllHome()
    {
      hide InArea, File.Home;
      assert With(fp, i).files == files[fp := i];
    }

    /** and as it is when its slots are still there. */
    lemma Stayed()
      requires Ordered() && Distinct() && forall h :: h in files ==> Slotted(dj, h, files[h], owners)
      ensures Valid()
    {
      hide Ordered, Distinct, Slotted;
    }

    /** Slots are kept when the owners of the files are. */
    lemma SlotsMoved(t: Session)
      requires dj.Valid() && Distinct() && SameOwners(t) && forall h :: h in files ==> Slotted(dj, h, files[h], owners)
      ensures forall h :: h in files ==> Slotted(dj, h, files[h], t.owners)
    {
      hide Slotted, Dir.Valid;
      forall h | h in files
        ensures Slotted(dj, h, files[h], t.owners)
      {
        SlotOfOwner(dj, h, files[h], owners, t.owners);
      }
    }

    /** Different owners share no cluster. */
    lemma Separate(f: File)
      requires Valid() && f in files
      ensures f.fs == dj.fs && Slotted(dj, f, files[f], owners) && Apart(dj.chain, f.chain)
      ensures Distinct() && Ordered() && Owned(dj.fs.FatSeq(), owners, bad) && WellFormed(dj.Content())
      ensures var e := dj.Content()[files[f]]; !IsFree(e) && !HasBit(e[DIR_ATTR], AM_VOL)
      ensures forall h :: h in files && h != f ==> h.buf != f.buf && h.buf != dj.fs.win && Apart(dj.chain, h.chain)
      ensures forall h :: h in files ==> h.fs == dj.fs && (h != f ==> files[h] != files[f])
      ensures Owner(files[f]) in owners && owners[Owner(files[f])] == f.chain && files[f] < |dj.Content()|
      ensures !HasBit(dj.Content()[files[f]][DIR_ATTR], AM_DIR)
      ensures f.isOpen && f.sclust == StartOf(f.chain) && f.objsize == |f.contents|
      ensures forall h :: h in files && h != f ==> Apart(h.chain, f.chain)
      ensures forall k :: Closed(k) ==>
        Holds(dj.fs.FatSeq(), owners[k]) && Apart(owners[k], f.chain) && Apart(dj.chain, owners[k])
    {
      hide Dir.Valid, File.Core, File.Placed, WellFormed, Holds, Apart, HasBit, LdClust;
      assert Owner(files[f]) in owners;
    }

    /** A file keeps its slot when its entry is still there, */
    twostate lemma SlotKept(h: File)
      requires old(Valid()) && h in files && unchanged(h) && h.Valid() && dj.Valid() && old(dj.Tbl()) <= dj.Tbl()
      requires files[h] < |dj.Content()| && dj.Content()[files[h]] == old(dj.Content()[files[h]])
      ensures Slotted(dj, h, files[h], owners)
    {
      hide Dir.Valid, File.Valid, Owned, WellFormed, Catalog, File.View, Sectors, FileSize, LdClust;
    }

    /** which was there before. */
    twostate lemma SlotThere(h: File)
      requires old(Valid()) && h in files
      ensures old(files[h] < |dj.Content()|)
    {
      hide Dir.Valid, File.Valid, Owned, WellFormed, Catalog, File.Placed, Told;
    }

    /** All files but the one called keep their slots. */
    twostate lemma OthersKept(t: Turn)
      requires old(Valid()) && t.f in files && unchanged(dj) && dj.Valid() && dj.Content() == old(dj.Content())
      requires forall h :: h in files && h != t.f ==> unchanged(h) && unchanged(h.buf)
      requires InArea(dj.fs.g, t.touched) && OnlyChain(dj.fs.g, old(dj.fs.Vol()), dj.fs.Vol(), t.touched)
      requires ChainStep(old(dj.fs.FatSeq()), old(t.f.chain), dj.fs.FatSeq(), t.f.chain, t.touched)
      requires dj.fs.winsect == old(dj.fs.winsect) || dj.fs.g.InFat1(dj.fs.winsect)
      requires forall h :: h in files && h != t.f ==> old(Apart(h.chain, t.f.chain))
      requires t.touched == t.f.chain || t.touched == old(t.f.chain)
      requires forall h :: h in files ==> h.fs == dj.fs
      ensures UnhitByCall(t.f, old(t.f.chain)) ==>
        forall h :: h in files && h != t.f ==> Slotted(dj, h, files[h], owners)
    {
      hide Volume.Valid, Volume.Vol, Fat, Sectors, Holds, ChainStep, Dir.Valid, WellFormed, Owned, Catalog, Slotted,
           File.Valid, Apart, File.Untaken, Dir.Content, OnlyChain;
      if UnhitByCall(t.f, old(t.f.chain)) {
        forall h | h in files && h != t.f
          ensures Slotted(dj, h, files[h], owners)
        {
          FileThere(h);
          OtherOpenFileKept(Turn(t.f, h, t.touched));
          SlotThere(h);
          SlotKept(h);
        }
      }
    }

    twostate lemma FileThere(h: File)
      requires old(Valid()) && h in files
      ensures old(h.Valid()) && h.fs == dj.fs
    {
      hide Dir.Valid, File.Valid, Ordered, Dir.Content;
    }

    /** The directory stays in order while the chain of an open file changes. */
    twostate lemma OrderKept(f: File)
      requires old(Ordered()) && f in files && unchanged(dj) && dj.Valid() && dj.Content() == old(dj.Content())
      requires Owner(files[f]) in owners && files[f] < |dj.Content()|
      requires !HasBit(dj.Content()[files[f]][DIR_ATTR], AM_DIR)
      requires Owned(dj.fs.FatSeq(), After(f).owners, bad)
      ensures After(f).Ordered()
    {
      hide Dir.Valid, WellFormed, Owned, Catalog, File.Valid, File.Placed, Told, HasBit;
      CatalogKept(dj.fs.g.fsType, dj.Content(), files.Values, owners, files[f], f.chain);
    }

    /** The session after a call, from its parts. */
    lemma Assembled(f: File)
      requires Distinct() && f in files && After(f).Ordered()
      requires Slotted(dj, f, files[f], After(f).owners) && forall h :: h in files && h != f ==>
        Slotted(dj, h, files[h], owners)
      ensures After(f).Valid()
    {
      hide Volume.Valid, Volume.Vol, Dir.Valid, WellFormed, Owned, Catalog, File.Valid, File.Placed, Told, Dir.Content,
           Ordered, Slotted;
      var o := After(f).owners;
      assert After(f) == Session(dj, files, o, bad);
      forall h | h in files && h != f
        ensures Slotted(dj, h, files[h], o)
      {
        SlotOfOwner(dj, h, files[h], owners, o);
      }
    }

    /** Closed objects are spared by a call on one file. */
    lemma ClosedSpared(g: Geo, vol: seq<Sector>, vol': seq<Sector>, ch: seq<nat>, ch': seq<nat>, touched: seq<nat>)
      requires IsVolume(g, vol) && IsVolume(g, vol') && InArea(g, touched) && OnlyChain(g, vol, vol', touched)
      requires ChainStep(Fat(g, vol), ch, Fat(g, vol'), ch', touched)
      requires forall k :: Closed(k) ==> Holds(Fat(g, vol), owners[k]) && Apart(owners[k], ch)
      ensures Spares(g, vol, vol')
    {
      hide Fat, Sectors, Holds, ChainStep, Spared, Apart, OnlyChain;
      forall k | Closed(k)
        ensures Spared(g, vol, vol', owners[k])
      {
        SparedByStep(g, vol, ch, vol', ch', touched, owners[k]);
      }
    }

    /** All files but f keep their slots when f is synchronized, */
    twostate lemma OthersKeptBySync(f: File)
      requires old(Valid()) && f in files && unchanged(dj) && dj.Valid() && dj.fs.FatSeq() == old(dj.fs.FatSeq())
      requires f.fs == dj.fs && f.OnlyOwnChanged() && f.dirSect in dj.Tbl()
      requires forall h :: h in files && h != f ==> unchanged(h) && unchanged(h.buf)
      requires OneSlot(old(dj.Content()), dj.Content(), files[f])
      requires forall h :: h in files && h != f ==> Apart(h.chain, f.chain) && Apart(dj.chain, h.chain)
      requires forall h :: h in files && h != f ==> files[h] != files[f] && h.fs == dj.fs
      ensures UnhitBySync(f) ==> forall h :: h in files && h != f ==> Slotted(dj, h, files[h], owners)
    {
      hide Volume.Valid, Volume.Vol, Fat, Sectors, Holds, Dir.Valid, WellFormed, Owned, Catalog, Slotted, File.Valid,
           Apart, File.Untaken, Dir.Content, Table, DirChain, Volume.ChangedOnly, Distinct;
      dj.Linked();
      if UnhitBySync(f) {
        forall h | h in files && h != f
          ensures Slotted(dj, h, files[h], owners)
        {
          FileThere(h);
          if f.dirSect in h.Secs() {
            FileBesideTable(dj.fs.g, dj.fs.FatSeq(), dj.sclust, dj.chain, h.chain, f.dirSect);
          }
          OtherOpenFileKeptBySync(Turn(f, h, []));
          SlotThere(h);
          SlotKept(h);
        }
      }
    }

    /** and closed objects and the boot record are not disturbed. */
    twostate lemma ClosedSparedBySync(f: File)
      requires dj.Valid() && f.fs == dj.fs && dj.fs.Attached() && old(dj.fs.Attached()) && f.OnlyOwnChanged()
      requires f.dirSect in dj.Tbl()
      requires forall k :: Closed(k) ==>
        Holds(old(dj.fs.FatSeq()), owners[k]) && Apart(owners[k], f.chain) && Apart(dj.chain, owners[k])
      requires dj.fs.FatSeq() == old(dj.fs.FatSeq())
      ensures Spares(dj.fs.g, old(dj.fs.Vol()), dj.fs.Vol()) && SameBoot(dj.fs.g, old(dj.fs.Vol()), dj.fs.Vol())
    {
      hide Volume.Valid, Volume.Vol, Fat, Sectors, Holds, Dir.Valid, Apart, Table, DirChain, Spared, SameBoot;
      var g, vol, vol' := dj.fs.g, old(dj.fs.Vol()), dj.fs.Vol();
      dj.Linked();
      forall k | Closed(k)
        ensures Spared(g, vol, vol', owners[k])
      {
        SparedBySync(g, vol, vol', dj.sclust, dj.chain, f.chain, f.dirSect, owners[k]);
      }
      BootKeptBySync(g, vol, vol', dj.sclust, dj.chain, f.chain, f.dirSect);
    }

    /** The files keep their slots when the directory is changed, if their entries are what they were. */
    twostate lemma OthersKeptByDir(added: seq<nat>)
      requires old(Valid()) && dj.Valid() && forall h :: h in files ==> unchanged(h) && unchanged(h.buf)
      requires old(dj.Tbl()) <= dj.Tbl() && dj.OnlyOwnChanged(added)
      requires forall h :: h in files ==>
        Holds(dj.fs.FatSeq(), h.chain) && Apart(dj.chain, h.chain) && Apart(h.chain, added)
      requires forall h :: h in files ==> h.fs == dj.fs && SameSlot(old(dj.Content()), dj.Content(), files[h])
      ensures UnhitByDir(added) ==> forall h :: h in files ==> Slotted(dj, h, files[h], owners)
    {
      hide Volume.Valid, Volume.Vol, Fat, Sectors, Holds, Dir.Valid, WellFormed, Owned, Catalog, Slotted, File.Valid,
           Apart, File.Untaken, Dir.Content, Table, DirChain, Dir.OnlyOwnChanged;
      dj.Linked();
      if UnhitByDir(added) {
        forall h | h in files
          ensures Slotted(dj, h, files[h], owners)
        {
          FileThere(h);
          OtherOpenFileKeptByDir(Around(dj, h, added));
          SlotThere(h);
          SlotKept(h);
        }
      }
    }

    /**
      The file f_open is asked for: it is not open yet, and its owner is known; its
      bytes count unless they are dropped.
      */
    ghost predicate Openable(mode: OpenMode, bytes: seq<byte>)
      requires dj.Valid()
      reads dj, dj.fs, dj.fs.win
    {
      match Directory.Find(dj.Content(), dj.fn, 0)
      case None => true
      case Some(k) =>
        && Owner(k) in owners && k !in files.Values
        && (HasBit(dj.Content()[k][DIR_ATTR], AM_DIR) || mode.createAlways
            || (FileHeld(dj.fs.g, dj.fs.Vol(), owners[Owner(k)], bytes) && FileSize(dj.Content()[k]) == |bytes|))
    }

    ghost function TargetChain(): seq<nat>
      requires dj.Valid()
      reads dj, dj.fs, dj.fs.win
    {
      match Directory.Find(dj.Content(), dj.fn, 0)
      case None => []
      case Some(k) => if Owner(k) in owners then owners[Owner(k)] else []
    }

    /** Slots of owners and of open files are used. */
    lemma UsedSlots()
      requires Valid()
      ensures forall h :: h in files ==> files[h] < |dj.Content()| && !IsFree(dj.Content()[files[h]])
      ensures forall h :: h in files ==> Owner(files[h]) in owners && owners[Owner(files[h])] == h.chain
      ensures forall i: nat :: Owner(i) in owners && i < MAX_SLOTS ==> i < |dj.Content()| && !IsFree(dj.Content()[i])
    {
      hide Dir.Valid, File.Valid, File.Placed, WellFormed, HasBit, FileSize, LdClust, Told, IsChain, Volume.Vol, Fat;
      forall h | h in files
        ensures files[h] < |dj.Content()| && !IsFree(dj.Content()[files[h]])
        ensures Owner(files[h]) in owners && owners[Owner(files[h])] == h.chain
      {
        assert Slotted(dj, h, files[h], owners);
      }
    }

    lemma OpenableTarget(mode: OpenMode, bytes: seq<byte>)
      requires Valid() && Openable(mode, bytes)
      ensures Target(dj, mode, TargetChain(), bytes)
      ensures Directory.Find(dj.Content(), dj.fn, 0).Some? ==>
        var k := Directory.Find(dj.Content(), dj.fn, 0).value;
        && Owner(k) in owners && TargetChain() == owners[Owner(k)] && (forall h :: h in files ==> files[h] != k)
        && Holds(dj.fs.FatSeq(), TargetChain())
        && LdClust(dj.fs.g.fsType, dj.Content()[k]) == StartOf(TargetChain())
        && (HasBit(dj.Content()[k][DIR_ATTR], AM_DIR) || mode.createAlways || FileSize(dj.Content()[k]) == |bytes|)
    {
      hide Dir.Valid, File.Valid, File.Placed, WellFormed, HasBit, FileSize, LdClust, Told, IsChain, Directory.Find,
           Volume.Vol, Fat;
      var k := Directory.Find(dj.Content(), dj.fn, 0);
      if k.Some? {
        dj.Linked();
        ChainInArea(dj.fs.g, dj.fs.Vol(), owners[Owner(k.value)]);
      }
    }

    /** Files and directory have different owners in o as well. */
    twostate lemma FilesApart(new t: Session)
      requires old(Valid()) && forall h :: h in files ==> unchanged(h)
      requires dj.fs.Attached() && Owned(dj.fs.FatSeq(), t.owners, bad) && 0 in t.owners && t.owners[0] == dj.chain
      requires SameOwners(t)
      ensures forall h :: h in files ==> Holds(dj.fs.FatSeq(), h.chain) && Apart(dj.chain, h.chain)
    {
      hide Dir.Valid, File.Valid, File.Placed, WellFormed, Catalog, Told, Holds, Apart, HasBit, Volume.Vol, Fat;
      assert forall h :: h in files ==> Owner(files[h]) in owners && owners[Owner(files[h])] == h.chain;
    }

    /** Closed objects are spared by changes of the directory. */
    lemma ClosedSparedByDir(g: Geo, vol: seq<Sector>, vol': seq<Sector>, sclust: nat, added: seq<nat>)
      requires IsVolume(g, vol) && IsVolume(g, vol') && 0 in owners && Owned(Fat(g, vol'), owners, bad)
      requires InArea(g, owners[0])
      requires DirChain(g, Fat(g, vol'), sclust, owners[0]) && InArea(g, added)
      requires OnlyBeside(g, vol, vol', Table(g, sclust, owners[0]), added)
      requires forall k :: Closed(k) ==> Holds(Fat(g, vol), owners[k]) && Apart(owners[k], added)
      ensures Spares(g, vol, vol')
    {
      hide Fat, Holds, Apart, Spared, DirChain, Table, OnlyBeside;
      ClosedSparedBeside(g, vol, vol', sclust, added, owners);
    }

    /** Changes beside the directory, as the files see them. */
    twostate lemma DirChanged(added: seq<nat>)
      requires dj.Valid() && old(dj.fs.Attached()) && InArea(dj.fs.g, added)
      requires OnlyBeside(dj.fs.g, old(dj.fs.Vol()), dj.fs.Vol(), dj.Tbl(), added)
      requires || dj.fs.winsect == old(dj.fs.winsect) || dj.Inside() || dj.fs.winsect in Sectors(dj.fs.g, added)
               || dj.fs.winsect == dj.fs.g.volbase + 1
      ensures dj.OnlyOwnChanged(added)
    {
      hide Volume.Valid, Volume.Vol, Fat, Sectors, DirChain, Table;
    }

    /** The session after a directory with cluster dcl is made in slot i. */
    ghost function Made(i: nat, dcl: nat): Session
      reads dj
    {
      var o: map<nat, seq<nat>> := owners[Owner(i) := [dcl]];
      this.(owners := o[0 := dj.chain])
    }

    lemma MadeFacts(i: nat, dcl: nat)
      requires Distinct() && Owner(i) !in owners && forall h :: h in files ==> files[h] != i
      ensures Made(i, dcl).Distinct() && SameOwners(Made(i, dcl)) && 0 in Made(i, dcl).owners
      ensures Made(i, dcl).owners[0] == dj.chain
      ensures forall k :: Closed(k) ==> k in Made(i, dcl).owners && Made(i, dcl).owners[k] == owners[k]
    {
    }

    /** Closed objects are spared by changes of the directory when o is who owns what after them. */
    lemma ClosedSparedBeside(g: Geo, vol: seq<Sector>, vol': seq<Sector>, sclust: nat, added: seq<nat>, o: map<nat,
                             seq<nat>>)
      requires IsVolume(g, vol) && IsVolume(g, vol') && 0 in o && Owned(Fat(g, vol'), o, bad) && InArea(g, o[0])
      requires DirChain(g, Fat(g, vol'), sclust, o[0]) && InArea(g, added)
      requires OnlyBeside(g, vol, vol', Table(g, sclust, o[0]), added)
      requires forall k :: Closed(k) ==>
        k in o && o[k] == owners[k] && Holds(Fat(g, vol), owners[k]) && Apart(owners[k], added)
      ensures Spares(g, vol, vol')
    {
      hide Fat, Holds, Apart, Spared, DirChain, Table, OnlyBeside;
      forall k | Closed(k)
        ensures Spared(g, vol, vol', owners[k])
      {
        SparedByDir(g, vol, vol', sclust, o[0], added, owners[k]);
      }
    }

    /** The object f_unlink is asked for is not open, and its owner is known. */
    ghost predicate Unlinkable()
      requires dj.Valid()
      reads dj, dj.fs, dj.fs.win
    {
      match Directory.Find(dj.Content(), dj.fn, 0)
      case None => true
      case Some(k) => Owner(k) in owners && k !in files.Values
    }

    /** What f_unlink answers. */
    ghost function UnlinkAnswer(): Result
      requires dj.Valid()
      reads dj, dj.fs, dj.fs.win
    {
      match Directory.Find(dj.Content(), dj.fn, 0)
      case None => NoFile
      case Some(k) =>
        if InArea(dj.fs.g, TargetChain()) && OnVolume(dj.fs.Vol(), Sectors(dj.fs.g, TargetChain())) then
          UnlinkVerdict(dj.fs.g, dj.fs.Vol(), dj.Content()[k], TargetChain())
        else NoFile
    }

    /** The slots of the object f_unlink would delete, if it is a directory. */
    ghost function TargetSlots(): seq<Entry32>
      requires dj.Valid()
      reads dj, dj.fs, dj.fs.win
    {
      if InArea(dj.fs.g, TargetChain()) && OnVolume(dj.fs.Vol(), Sectors(dj.fs.g, TargetChain())) then
        Slots(dj.fs.Vol(), Sectors(dj.fs.g, TargetChain()))
      else []
    }

    ghost function TargetOwner(): nat
      requires dj.Valid()
      reads dj, dj.fs, dj.fs.win
    {
      match Directory.Find(dj.Content(), dj.fn, 0)
      case None => 0
      case Some(k) => Owner(k)
    }

    /** The session after the object with the owner k is deleted. */
    ghost function Deleted(k: nat): Session {
      this.(owners := owners - {k})
    }

    lemma DeletedFacts(k: nat)
      requires Distinct()
      ensures Deleted(k).Distinct() && ((forall h :: h in files ==> Owner(files[h]) != k) ==> SameOwners(Deleted(k)))
      ensures forall j :: Deleted(k).Closed(j) ==> j in owners && Deleted(k).owners[j] == owners[j]
    {
    }

    lemma UnlinkableObject()
      requires Valid() && Unlinkable()
      ensures InArea(dj.fs.g, TargetChain())
      ensures forall h :: h in files ==> Apart(h.chain, TargetChain())
      ensures Directory.Find(dj.Content(), dj.fn, 0).Some? ==>
        var k := Directory.Find(dj.Content(), dj.fn, 0).value;
        && Owner(k) in owners && TargetChain() == owners[Owner(k)] && (forall h :: h in files ==> files[h] != k)
        && ObjectAt(dj, dj.Content()[k], TargetChain())
    {
      hide Dir.Valid, Dir.Content, WellFormed, HasBit, LdClust, Holds, Directory.Find, Volume.Vol, Fat, Valid, Slotted;
      InOrder();
      UsedSlots();
      dj.Linked();
      ChainInArea(dj.fs.g, dj.fs.Vol(), TargetChain());
      SectorsOnVolume(dj.fs.g, dj.fs.Vol(), TargetChain());
    }

    /** The files but f keep their slots without it. */
    lemma RestSlotted(f: File)
      requires Distinct() && f in files && dj.Valid() && forall h :: h in files && h != f ==>
        Slotted(dj, h, files[h], owners)
      ensures Without(f).Distinct() && Lost(f).Distinct()
      ensures forall h :: h in Without(f).files ==> Slotted(dj, h, files[h], owners) && Without(f).files[h] == files[h]
      ensures forall h :: h in Lost(f).files ==>
        Slotted(dj, h, files[h], Lost(f).owners) && Lost(f).files[h] == files[h]
    {
      hide Slotted, Dir.Valid;
      RestDistinct(f);
      var o := Lost(f).owners;
      hide Lost, Without, Distinct;
      forall h | h in files && h != f
        ensures Slotted(dj, h, files[h], o)
      {
        SlotOfOwner(dj, h, files[h], owners, o);
      }
    }

    lemma RestDistinct(f: File)
      requires Distinct() && f in files
      ensures Without(f).Distinct() && Lost(f).Distinct()
      ensures forall h :: h in Without(f).files || h in Lost(f).files ==> h in files && h != f
      ensures forall h :: h in Without(f).files ==> Without(f).files[h] == files[h]
      ensures forall h :: h in Lost(f).files ==> Lost(f).files[h] == files[h]
      ensures forall h :: h in files ==> h.fs == dj.fs
      ensures forall h :: h in files && h != f && Owner(files[h]) in owners ==>
        Owner(files[h]) in Lost(f).owners && Lost(f).owners[Owner(files[h])] == owners[Owner(files[h])]
    {
    }

    /** The directory stays in order when the entry of f is rewritten, whether f stays open, is closed, or is lost. */
    twostate lemma OrderSettled(f: File)
      requires old(Ordered()) && Distinct() && f in files && unchanged(dj) && dj.Valid()
      requires dj.fs.FatSeq() == old(dj.fs.FatSeq())
      requires Owner(files[f]) in owners && owners[Owner(files[f])] == f.chain && files[f] < |old(dj.Content())|
      requires !HasBit(old(dj.Content())[files[f]][DIR_ATTR], AM_DIR)
      requires WellFormed(dj.Content()) && OneSlot(old(dj.Content()), dj.Content(), files[f])
      requires StillUsed(old(dj.Content()[files[f]]), dj.Content()[files[f]])
      ensures Ordered() && Lost(f).Ordered()
      ensures LdClust(dj.fs.g.fsType, dj.Content()[files[f]]) == StartOf(f.chain) ==> Without(f).Ordered()
    {
      hide Dir.Valid, File.Valid, File.Placed, WellFormed, Owned, Catalog, HasBit, LdClust;
      CatalogSettled(dj.fs.g.fsType, old(dj.Content()), dj.Content(), files, owners, f);
      OwnerLost(dj.fs.FatSeq(), owners, bad, Owner(files[f]));
    }

    /** What the entry of an open file tells. */
    lemma ToldBefore(f: File)
      requires Valid() && f in files
      ensures files[f] < |dj.Content()| && Told(dj.fs.g.fsType, dj.Content()[files[f]], f)
    {
      hide Dir.Valid, File.Valid, File.Placed, WellFormed, Owned, Catalog, HasBit, LdClust, FileSize, Dir.Content, Told;
      assert Slotted(dj, f, files[f], owners);
    }

    /** The entry of a closed file tells its start cluster. */
    lemma ClosedKnows(f: File)
      requires dj.Valid() && Distinct() && f in files && Owner(files[f]) in owners && owners[Owner(files[f])] == f.chain
      requires files[f] < |dj.Content()|
      ensures Without(f).Ordered() ==> LdClust(dj.fs.g.fsType, dj.Content()[files[f]]) == StartOf(f.chain)
    {
      hide Dir.Valid, WellFormed, Owned, HasBit, LdClust, Dir.Content;
      dj.TblFacts();
      assert forall h :: h in files - {f} ==> (files - {f})[h] != files[f];
    }

    /** A file that was synchronized keeps its slot, */
    twostate lemma OwnSlotSettled(f: File)
      requires old(Valid()) && f in files && unchanged(dj) && dj.Valid() && f.Valid() && f.Placed() && f.isOpen
      requires f.chain == old(f.chain)
      requires |dj.Content()| == |old(dj.Content())| && files[f] < |dj.Content()|
      requires StillUsed(old(dj.Content()[files[f]]), dj.Content()[files[f]])
      requires Told(dj.fs.g.fsType, dj.Content()[files[f]], f)
      ensures Slotted(dj, f, files[f], owners)
    {
      hide Dir.Valid, File.Valid, File.Placed, WellFormed, Owned, Catalog, HasBit, LdClust, FileSize;
    }

    /** and so does one that was called. */
    twostate lemma OwnSlotKept(f: File)
      requires old(Valid()) && f in files && unchanged(dj) && f.Valid() && dj.Valid() && f.isOpen && f.Quiet()
      requires dj.Content() == old(dj.Content())
      requires Apart(dj.chain, f.chain) && (f.sect == old(f.sect) || f.sect in f.Secs())
      ensures Slotted(dj, f, files[f], After(f).owners)
    {
      hide Dir.Valid, File.Valid, Owned, WellFormed, Catalog, Sectors, FileSize, LdClust, Table, DirChain, Volume.Valid,
           Volume.Vol, Fat;
      dj.TblFacts();
      assert f.dirSect in dj.Tbl();
      if f.dirSect in f.Secs() {
        dj.Linked();
        FileBesideTable(dj.fs.g, dj.fs.FatSeq(), dj.sclust, dj.chain, f.chain, f.dirSect);
      }
    }
  }

  /** The boot record is still there. */
  ghost predicate SameBoot(g: Geo, vol: seq<Sector>, vol': seq<Sector>) {
    IsVolume(g, vol) && IsVolume(g, vol') && g.volbase < g.devSize && vol'[g.volbase] == vol[g.volbase]
  }

  /** Everything operations change lies behind the boot record. */
  lemma BootKept(g: Geo, vol: seq<Sector>, vol': seq<Sector>, ch: seq<nat>)
    requires IsVolume(g, vol) && IsVolume(g, vol') && InArea(g, ch) && OnlyChain(g, vol, vol', ch)
    ensures SameBoot(g, vol, vol')
  {
    hide Sectors;
    if g.volbase in Sectors(g, ch) {
      SectorsInData(g, ch, g.volbase);
    }
  }

  /** What f_sync changes is apart from every closed object, */
  lemma SparedBySync(g: Geo, vol: seq<Sector>, vol': seq<Sector>, sclust: nat, dch: seq<nat>, ch: seq<nat>, d: nat,
                     other: seq<nat>)
    requires IsVolume(g, vol) && IsVolume(g, vol') && InArea(g, dch) && InArea(g, ch)
    requires DirChain(g, Fat(g, vol'), sclust, dch)
    requires Fat(g, vol') == Fat(g, vol) && d in Table(g, sclust, dch)
    requires forall s: nat :: s < g.devSize && g.OutsideFats(s) && s !in Sectors(g, ch) + [d] && s != g.volbase + 1 ==>
      vol'[s] == vol[s]
    requires Holds(Fat(g, vol), other) && Apart(other, ch) && Apart(dch, other)
    ensures Spared(g, vol, vol', other)
  {
    hide Fat, Sectors, Holds, DirChain, Table;
    ChainInArea(g, vol, other);
    forall s | s in Sectors(g, other) && s < g.devSize
      ensures vol'[s] == vol[s]
    {
      SectorBeside(g, Fat(g, vol'), sclust, dch, ch, other, s);
    }
  }

  /** and from the boot record. */
  lemma BootKeptBySync(g: Geo, vol: seq<Sector>, vol': seq<Sector>, sclust: nat, dch: seq<nat>, ch: seq<nat>, d: nat)
    requires IsVolume(g, vol) && IsVolume(g, vol') && InArea(g, dch) && InArea(g, ch)
    requires DirChain(g, Fat(g, vol'), sclust, dch)
    requires d in Table(g, sclust, dch)
    requires forall s: nat :: s < g.devSize && g.OutsideFats(s) && s !in Sectors(g, ch) + [d] && s != g.volbase + 1 ==>
      vol'[s] == vol[s]
    ensures SameBoot(g, vol, vol')
  {
    hide Fat, Sectors, DirChain, Table;
    TableSectors(g, Fat(g, vol'), sclust, dch);
    if g.volbase in Sectors(g, ch) {
      SectorsInData(g, ch, g.volbase);
    }
    FsInfoInFront(g);
  }

  // ---- a call beside other open files

  /** A directory apart from a file is kept while its chain is changed. */
  lemma DirStays(g: Geo, vol: seq<Sector>, vol': seq<Sector>, sclust: nat, dch: seq<nat>, ch: seq<nat>, ch': seq<nat>,
                 touched: seq<nat>)
    requires IsVolume(g, vol) && IsVolume(g, vol') && InArea(g, touched) && OnlyChain(g, vol, vol', touched)
    requires InArea(g, dch) && DirChain(g, Fat(g, vol), sclust, dch) && Apart(dch, ch)
    requires ChainStep(Fat(g, vol), ch, Fat(g, vol'), ch', touched)
    ensures DirChain(g, Fat(g, vol'), sclust, dch) && Apart(dch, ch')
    ensures OnVolume(vol, Table(g, sclust, dch)) && OnVolume(vol', Table(g, sclust, dch))
    ensures Slots(vol', Table(g, sclust, dch)) == Slots(vol, Table(g, sclust, dch))
  {
    hide Fat, Table, Slots, ChainStep, Sectors, IsChain;
    DirHolds(g, Fat(g, vol), sclust, dch);
    StepApart(Fat(g, vol), ch, Fat(g, vol'), ch', touched, dch);
    DirChainKept(g, Fat(g, vol), Fat(g, vol'), sclust, dch);
    DirectoryKept(g, vol, vol', touched, sclust, dch);
  }

  /** The owner of an open slot may have another chain. */
  lemma CatalogKept(t: FatType, slots: seq<Entry32>, open: set<nat>, owners: map<nat, seq<nat>>, i: nat, ch: seq<nat>)
    requires Catalog(t, slots, open, owners) && i in open && i < |slots| && Owner(i) in owners
    requires !HasBit(slots[i][DIR_ATTR], AM_DIR)
    ensures Catalog(t, slots, open, owners[Owner(i) := ch])
  {
    hide HasBit, LdClust;
  }

  /** A call on an open file leaves a directory apart from it, and the boot record, alone. */
  method DoBeside(ghost dj: Dir, f: File, call: Call) returns (r: Answer, ghost touched: seq<nat>)
    requires dj.Valid() && f.Valid() && f.isOpen && f.fs == dj.fs && Apart(dj.chain, f.chain) && !call.SyncCall?
    modifies f.fs`disk, f.fs`wflag, f.fs`winsect, f.fs`freeClst, f.fs`lastClst, f.fs`fsiDirty, f.fs.win
    modifies f.buf, f`sclust, f`clust, f`chain, f`dirty, f`err, f`sect, f`fptr, f`objsize, f`contents, f`modified
    ensures f.Valid() && f.Quiet() && Follows(call, old(SightOf(f)), r, SightOf(f)) && Paid(f, call, r)
    ensures call.WriteCall? ==> f.WrittenBy(|call.data|, r.res, r.count)
    ensures dj.Valid() && dj.Content() == old(dj.Content()) && Apart(dj.chain, f.chain)
    ensures InArea(f.fs.g, touched) && OnlyChain(f.fs.g, old(f.fs.Vol()), f.fs.Vol(), touched)
    ensures ChainStep(old(f.fs.FatSeq()), old(f.chain), f.fs.FatSeq(), f.chain, touched)
    ensures touched == f.chain || touched == old(f.chain)
    ensures f.fs.winsect == old(f.fs.winsect) || f.fs.g.InFat1(f.fs.winsect)
    ensures f.sect == old(f.sect) || f.sect in f.Secs()
    ensures old(f.Home()) && (call.TruncateCall? ==> old(f.StaysHome())) ==> f.Home()
    ensures SameBoot(f.fs.g, old(f.fs.Vol()), f.fs.Vol())
  {
    hide Volume.Valid, Volume.Vol, Dir.Valid, File.Valid, Paid, Follows, ChainStep, OnlyChain, DirChain, File.WrittenBy;
    hide Apart, Slots, Table, Fat, Sectors, SameBoot, File.Quiet, File.StaysHome, File.Home, Dir.Content;
    ghost var vol, ch := f.fs.Vol(), f.chain;
    dj.Linked();
    dj.Relinked();
    r, touched := Do(f, call);
    DirStays(f.fs.g, vol, f.fs.Vol(), dj.sclust, dj.chain, ch, f.chain, touched);
    dj.Relinked();
    BootKept(f.fs.g, vol, f.fs.Vol(), touched);
  }

  /**
    A call on one of several open files: its user sees a plain sequence of bytes
    and a cursor; the directory, the closed objects and the boot record are not
    disturbed, every cluster keeps one owner, and the other files are not
    disturbed either unless one of their buffers shows a sector of the called
    file instead of one of their own.
    */
  method CallBeside(ghost s: Session, f: File, call: Call) returns (r: Answer)
    requires s.Valid() && f in s.files && !call.SyncCall?
    modifies f.fs`disk, f.fs`wflag, f.fs`winsect, f.fs`freeClst, f.fs`lastClst, f.fs`fsiDirty, f.fs.win
    modifies f.buf, f`sclust, f`clust, f`chain, f`dirty, f`err, f`sect, f`fptr, f`objsize, f`contents, f`modified
    ensures f.Valid() && s.After(f).Ordered() && s.dj.Content() == old(s.dj.Content())
    ensures s.UnhitByCall(f, old(f.chain)) || old(s.OthersHome(f)) ==> s.After(f).Valid()
    ensures Follows(call, old(SightOf(f)), r, SightOf(f)) && f.Quiet() && Paid(f, call, r)
    ensures call.WriteCall? ==> f.WrittenBy(|call.data|, r.res, r.count)
    ensures s.Spares(s.dj.fs.g, old(s.dj.fs.Vol()), s.dj.fs.Vol())
    ensures SameBoot(s.dj.fs.g, old(s.dj.fs.Vol()), s.dj.fs.Vol())
    ensures old(f.Home()) && (call.TruncateCall? ==> old(f.StaysHome())) ==> f.Home()
  {
    hide Volume.Valid, Volume.Vol, Dir.Valid, File.Valid, File.Placed, WellFormed, Owned, Catalog, Paid, Follows,
         ChainStep, OnlyChain, File.WrittenBy;
    hide Holds, Apart, Slots, Table, Fat, Sectors, Spared, SameBoot, File.Quiet, File.StaysHome, File.Home, Told,
         InArea, Dir.Content;
    hide Session.Valid, Session.Ordered, Session.Distinct, Session.Spares, Session.OthersHome, Session.Closed,
         Session.UnhitByCall;
    ghost var dj := s.dj;
    s.Separate(f);
    ghost var g, vol, fat, ch := f.fs.g, f.fs.Vol(), f.fs.FatSeq(), f.chain;
    ghost var touched;
    r, touched := DoBeside(dj, f, call);
    StepOwned(fat, s.owners, s.bad, Owner(s.files[f]), f.fs.FatSeq(), f.chain, touched);
    s.OwnSlotKept(f);
    s.OthersKept(Turn(f, f, touched));
    s.ClosedSpared(g, vol, f.fs.Vol(), ch, f.chain, touched);
    s.OrderKept(f);
    if old(s.OthersHome(f)) {
      s.OthersHomeAfter(f);
      s.HomeIsUnhit(f, ch);
    }
    if s.UnhitByCall(f, ch) {
      s.Assembled(f);
    }
  }

  // ---- f_sync and f_close beside other open files

  /** One slot rewritten in its sector; the other sectors of the table as they were. */
  lemma EntryWritten(vol: seq<Sector>, disk: seq<Sector>, tbl: seq<nat>, i: nat, at: nat, e: Entry32)
    requires OnVolume(vol, tbl) && |disk| == |vol| && AllDistinct(tbl) && i < SlotCount(tbl)
    requires at == i % SLOTS_PER_SECTOR * ENTRY_SIZE
    requires var d := tbl[i / SLOTS_PER_SECTOR];
      disk[d] == Patch(vol[d], at, e) && forall s :: s in tbl && s != d && s < |vol| ==> disk[s] == vol[s]
    ensures Slots(disk, tbl) == Slots(vol, tbl)[i := e]
  {
    hide Slots, Patch;
    var d := tbl[i / SLOTS_PER_SECTOR];
    var base := vol[d := Patch(vol[d], at, e)];
    SlotsPatched(vol, tbl, i, 0, e);
    PatchAll(SlotAt(vol, tbl, i), e);
    SlotsFrame(base, disk, tbl);
  }

  /** f_sync or f_close on an open file, as changes of the volume. */
  method SyncStep(f: File, tm: dword, closing: bool) returns (res: Result)
    requires f.Valid() && f.Placed() && f.isOpen
    modifies f.fs`disk, f.fs`wflag, f.fs`winsect, f.fs`fsiDirty, f.fs.win, f`dirty, f`modified, f`isOpen
    ensures res == Ok && f.Valid() && f.Placed() && f.isOpen == !closing && f.fs.FatSeq() == old(f.fs.FatSeq())
    ensures f.OnlyOwnChanged()
    ensures f.fs.Vol()[f.dirSect] ==
      if old(f.modified) then f.WithEntry(old(f.fs.Vol()), tm) else old(f.fs.Vol())[f.dirSect]
    ensures if old(f.modified) then
        !f.modified && !f.dirty && !f.fs.wflag && f.fs.disk == f.fs.Vol() && FileRep(f.fs.Vol(), f.Secs(), f.contents)
      else
        && !f.modified && f.dirty == old(f.dirty) && f.fs.disk == old(f.fs.disk) && f.fs.wflag == old(f.fs.wflag)
        && f.fs.Vol() == old(f.fs.Vol())
  {
    hide Volume.Valid, Volume.Vol, File.Valid, File.View, Fat, Sectors, RecordEntry, Patch, FileRep;
    f.CleanView();
    if closing {
      res := f.Close(tm);
    } else {
      res := f.Sync(tm);
    }
    forall s: nat | s < f.fs.g.devSize && s !in f.Secs()
      ensures old(f.View())[s] == old(f.fs.Vol())[s]
    {
      f.ViewElsewhere(s);
    }
  }

  /** The entry of a file written into its directory. */
  lemma SlotStored(g: Geo, vol: seq<Sector>, vol': seq<Sector>, sclust: nat, dch: seq<nat>, ch: seq<nat>, i: nat,
                   e: Entry32)
    requires IsVolume(g, vol) && IsVolume(g, vol') && Fat(g, vol') == Fat(g, vol)
    requires InArea(g, dch) && InArea(g, ch) && DirChain(g, Fat(g, vol), sclust, dch) && Apart(dch, ch)
    requires OnVolume(vol, Table(g, sclust, dch)) && i < SlotCount(Table(g, sclust, dch))
    requires var d := Table(g, sclust, dch)[i / SLOTS_PER_SECTOR];
      && vol'[d] == Patch(vol[d], i % SLOTS_PER_SECTOR * ENTRY_SIZE, e)
      && forall s: nat :: s < g.devSize && g.OutsideFats(s) && s !in Sectors(g, ch) + [d] && s != g.volbase + 1 ==>
           vol'[s] == vol[s]
    ensures DirChain(g, Fat(g, vol'), sclust, dch) && OnVolume(vol', Table(g, sclust, dch))
    ensures Slots(vol', Table(g, sclust, dch)) == Slots(vol, Table(g, sclust, dch))[i := e]
  {
    hide Fat, Table, Slots, Sectors, DirChain, Patch;
    TableSectors(g, Fat(g, vol), sclust, dch);
    var tbl := Table(g, sclust, dch);
    forall s | s in tbl
      ensures s !in Sectors(g, ch) && s != g.volbase + 1 && g.OutsideFats(s)
    {
      FileBesideTable(g, Fat(g, vol), sclust, dch, ch, s);
      FsInfoInFront(g);
    }
    EntryWritten(vol, vol', tbl, i, i % SLOTS_PER_SECTOR * ENTRY_SIZE, e);
  }

  /** An entry that tells about a clean file describes it. */
  lemma ToldFileAt(t: FatType, e: Entry32, f: File)
    requires f.Valid() && Told(t, e, f) && f.err == Ok && !f.modified && t == f.fs.g.fsType
    ensures FileAt(f.fs.g, f.fs.Vol(), e, f.chain, f.contents)
  {
    hide Volume.Valid, Volume.Vol, Fat, Sectors, FileRep, Holds, FileSize, LdClust, File.View;
    f.CoreChain();
    f.CleanView();
  }

  /**
    f_sync or f_close: the slot of the file, if it was changed, tells its chain and
    size now; the bytes are on the volume.
    */
  method SyncSlot(ghost dj: Dir, f: File, tm: dword, closing: bool, ghost i: nat) returns (res: Result)
    requires dj.Valid() && f.Valid() && f.Placed() && f.isOpen && f.fs == dj.fs && Apart(dj.chain, f.chain)
    requires i < |dj.Content()| && f.dirSect == dj.Tbl()[i / SLOTS_PER_SECTOR]
    requires f.dirPtr == i % SLOTS_PER_SECTOR * ENTRY_SIZE
    modifies f.fs`disk, f.fs`wflag, f.fs`winsect, f.fs`fsiDirty, f.fs.win, f`dirty, f`modified, f`isOpen
    ensures res == Ok && f.Valid() && f.Placed() && f.isOpen == !closing && f.fs.FatSeq() == old(f.fs.FatSeq())
    ensures f.OnlyOwnChanged()
    ensures dj.Valid() && dj.Content() == if old(f.modified) then
        old(dj.Content())[i := RecordEntry(dj.fs.g.fsType, old(dj.Content())[i], f.sclust, f.objsize, tm)]
      else old(dj.Content())
    ensures if old(f.modified) then
        && !f.modified && !f.dirty && !f.fs.wflag && f.fs.disk == f.fs.Vol()
        && FileHeld(f.fs.g, f.fs.Vol(), f.chain, f.contents)
      else
        && !f.modified && f.dirty == old(f.dirty) && f.fs.disk == old(f.fs.disk) && f.fs.wflag == old(f.fs.wflag)
        && f.fs.Vol() == old(f.fs.Vol())
  {
    hide Volume.Valid, Volume.Vol, Dir.Valid, File.Valid, DirChain, Table, Slots, Fat, Sectors, RecordEntry, Patch,
         FileRep, SlotCount, Holds;
    ghost var g, vol := f.fs.g, f.fs.Vol();
    dj.Linked();
    dj.Relinked();
    SlotOfContent(vol, dj.Tbl(), i);
    res := SyncStep(f, tm, closing);
    f.CoreChain();
    if old(f.modified) {
      SlotStored(g, vol, f.fs.Vol(), dj.sclust, dj.chain, f.chain, i,
                 RecordEntry(g.fsType, old(dj.Content())[i], f.sclust, f.objsize, tm));
    }
    dj.Relinked();
  }

  lemma StartFits(g: Geo, ch: seq<nat>)
    requires g.Valid() && InArea(g, ch)
    ensures StartOf(ch) < (if g.fsType.FAT32? then 0x1_0000_0000 else 0x1_0000)
  {
  }

  lemma ArchiveKeeps(b: byte)
    ensures HasBit(WithArchive(b), AM_VOL) == HasBit(b, AM_VOL) && HasBit(WithArchive(b), AM_DIR) == HasBit(b, AM_DIR)
    ensures HasBit(WithArchive(b), AM_RDO) == HasBit(b, AM_RDO)
  {
  }

  /** Recording start cluster and size in a used entry keeps the directory well formed, and the entry used. */
  lemma RecordKeeps(t: FatType, slots: seq<Entry32>, i: nat, start: nat, size: dword, tm: nat)
    requires WellFormed(slots) && i < |slots| && !IsFree(slots[i]) && !HasBit(slots[i][DIR_ATTR], AM_VOL)
    requires start < (if t.FAT32? then 0x1_0000_0000 else 0x1_0000)
    ensures var r := RecordEntry(t, slots[i], start, size, tm);
      && WellFormed(slots[i := r]) && OneSlot(slots, slots[i := r], i)
      && LdClust(t, r) == start && FileSize(r) == size && StillUsed(slots[i], r)
  {
    hide WellFormed, RecordEntry, LdClust, FileSize, HasBit, Inserted;
    var e := slots[i];
    var r := RecordEntry(t, e, start, size, tm);
    RecordedEntryReads(t, e, start, size, tm);
    ArchiveKeeps(e[DIR_ATTR]);
    UsedIsFound(slots, i);
    RefreshKeeps(slots, e[..11], i, r);
    InsertedFinds(slots, e[..11], i, slots[i := r]);
    assert r[0] == r[..11][0] == e[..11][0] == e[0];
  }

  /** f_sync or f_close beside other open files: the others, closed objects and the boot record are not disturbed. */
  method SettleBeside(ghost s: Session, f: File, tm: dword, closing: bool) returns (res: Result)
    requires s.Valid() && f in s.files
    modifies f.fs`disk, f.fs`wflag, f.fs`winsect, f.fs`fsiDirty, f.fs.win, f`dirty, f`modified, f`isOpen
    ensures res == Ok && f.Valid() && f.Placed() && f.isOpen == !closing && f.fs.FatSeq() == old(f.fs.FatSeq())
    ensures !f.modified
    ensures s.dj.Valid() && s.dj.Content() == if old(f.modified) then
        old(s.dj.Content())[s.files[f] :=
          RecordEntry(s.dj.fs.g.fsType, old(s.dj.Content())[s.files[f]], f.sclust, f.objsize, tm)]
      else old(s.dj.Content())
    ensures if old(f.modified) then
        !f.dirty && !f.fs.wflag && f.fs.disk == f.fs.Vol() && FileHeld(f.fs.g, f.fs.Vol(), f.chain, f.contents)
      else
        && f.dirty == old(f.dirty) && f.fs.disk == old(f.fs.disk) && f.fs.wflag == old(f.fs.wflag)
        && f.fs.Vol() == old(f.fs.Vol())
    ensures WellFormed(s.dj.Content()) && OneSlot(old(s.dj.Content()), s.dj.Content(), s.files[f])
    ensures StillUsed(old(s.dj.Content())[s.files[f]], s.dj.Content()[s.files[f]])
    ensures Told(f.fs.g.fsType, s.dj.Content()[s.files[f]], f)
    ensures old(f.modified) || f.err == Ok ==>
      FileAt(f.fs.g, f.fs.Vol(), s.dj.Content()[s.files[f]], f.chain, f.contents)
    ensures s.UnhitBySync(f) || old(s.OthersHome(f)) ==>
      forall h :: h in s.files && h != f ==> Slotted(s.dj, h, s.files[h], s.owners)
    ensures s.Spares(s.dj.fs.g, old(s.dj.fs.Vol()), s.dj.fs.Vol())
    ensures SameBoot(s.dj.fs.g, old(s.dj.fs.Vol()), s.dj.fs.Vol())
  {
    hide Volume.Valid, Volume.Vol, Dir.Valid, File.Valid, WellFormed, Owned, Catalog, Slots, Table, Fat, Sectors,
         RecordEntry;
    hide Session.Valid, Session.Ordered, Session.Spares, Session.OthersHome, Session.Closed, Spared, SameBoot, FileHeld,
         Session.UnhitBySync;
    hide File.OnlyOwnChanged, HasBit, Dir.Content, FileSize, LdClust;
    ghost var dj, i := s.dj, s.files[f];
    s.Separate(f);
    ghost var vol, slots := f.fs.Vol(), dj.Content();
    res := SyncSlot(dj, f, tm, closing, i);
    StartFits(f.fs.g, f.chain);
    RecordKeeps(f.fs.g.fsType, slots, i, f.sclust, f.objsize, tm);
    if !old(f.modified) && f.err == Ok {
      ToldFileAt(f.fs.g.fsType, dj.Content()[i], f);
    }
    s.OthersKeptBySync(f);
    if old(s.OthersHome(f)) {
      s.OthersHomeAfter(f);
      s.HomeIsUnhit(f, f.chain);
    }
    s.ClosedSparedBySync(f);
  }

  lemma SyncPays(csize: nat, tm: dword, x: Sight, r: Answer, y: Sight, a: Store, b: Store)
    requires y == x.(flagged := false) && b == a.(waiting := b.waiting)
    requires (b.waiting ==> a.waiting) && (x.flagged ==> !b.waiting)
    ensures Costs(csize, SyncCall(tm), x, r, y, a, b)
  {
  }

  /** f_sync on one of several open files: its bytes, links and entry are on the device if it was changed. */
  method SyncBeside(ghost s: Session, f: File, tm: dword) returns (res: Result)
    requires s.Valid() && f in s.files
    modifies f.fs`disk, f.fs`wflag, f.fs`winsect, f.fs`fsiDirty, f.fs.win, f`dirty, f`modified, f`isOpen
    ensures res == Ok && s.Ordered() && SightOf(f) == old(SightOf(f)).(flagged := false) && f.Valid()
    ensures s.UnhitBySync(f) || old(s.OthersHome(f)) ==> s.Valid()
    ensures Paid(f, SyncCall(tm), Answer(res, 0, []))
    ensures OneSlot(old(s.dj.Content()), s.dj.Content(), s.files[f])
    ensures StillUsed(old(s.dj.Content())[s.files[f]], s.dj.Content()[s.files[f]])
    ensures old(f.modified) || f.err == Ok ==>
      FileAt(f.fs.g, f.fs.Vol(), s.dj.Content()[s.files[f]], f.chain, f.contents)
    ensures if old(f.modified) then !f.fs.wflag && f.fs.disk == f.fs.Vol() && !f.dirty
            else f.fs.disk == old(f.fs.disk) && f.fs.wflag == old(f.fs.wflag) && f.dirty == old(f.dirty)
    ensures s.Spares(s.dj.fs.g, old(s.dj.fs.Vol()), s.dj.fs.Vol())
    ensures SameBoot(s.dj.fs.g, old(s.dj.fs.Vol()), s.dj.fs.Vol())
    ensures !old(f.modified) ==> s.dj.Content() == old(s.dj.Content()) && f.fs.Vol() == old(f.fs.Vol())
  {
    hide Volume.Valid, Volume.Vol, Dir.Valid, File.Valid, WellFormed, Owned, Catalog, Fat, RecordEntry, FileAt;
    hide Session.Spares, Session.OthersHome, Session.Closed, Spared, SameBoot, FileHeld, Told, HasBit, Dir.Content,
         File.Placed, Session.UnhitBySync, CountRight, Damaged, FreeCount, Costs;
    hide Session.Ordered, Session.Distinct, Slotted;
    s.Separate(f);
    res := SettleBeside(s, f, tm, false);
    SyncPays(f.fs.g.csize, tm, old(SightOf(f)), Answer(res, 0, []), SightOf(f), old(StoreOf(f.fs)), StoreOf(f.fs));
    s.OwnSlotSettled(f);
    s.OrderSettled(f);
  }

  /** The clusters of a chain are used, and nobody owns them. */
  ghost predicate Leaked(t: Session, ch: seq<nat>)
    requires t.dj.fs.Attached()
    reads t.dj, t.dj.fs, t.dj.fs.win
  {
    forall c :: c in ch ==> c < |t.dj.fs.FatSeq()| && t.dj.fs.FatSeq()[c] != 0 && !HasOwner(t.owners, c)
  }

  /** Who has lost its owner in an ordered session has leaked. */
  lemma LostLeaks(s: Session, f: File)
    requires f in s.files && s.Lost(f).Ordered() && Holds(s.dj.fs.FatSeq(), f.chain)
    ensures Leaked(s.Lost(f), f.chain)
  {
    hide Dir.Valid, WellFormed, IsChain, Catalog, Dir.Content, Volume.Vol, Fat;
    var t := s.Lost(f);
    forall c | c in f.chain
      ensures c < |t.dj.fs.FatSeq()| && t.dj.fs.FatSeq()[c] != 0 && !HasOwner(t.owners, c)
    {
      LinkNotFree(s.dj.fs.FatSeq(), f.chain, c);
      assert c in t.bad;
    }
  }

  /** The entry of an open file tells its start cluster, or f_sync will record it. */
  ghost predicate EntryKnows(s: Session, f: File)
    requires s.dj.Valid() && f in s.files
    reads s.dj, s.dj.fs, s.dj.fs.win, f
  {
    f.modified || (s.files[f] < |s.dj.Content()| && LdClust(s.dj.fs.g.fsType, s.dj.Content()[s.files[f]]) == f.sclust)
  }

  /**
    f_close on one of several open files: what its user saw is described by its
    entry, and on the device if it was changed.  Its clusters are lost exactly
    when the flag is clear and the entry does not tell the start cluster: then it
    tells none, and the file got its first clusters from an aborted f_write.
    */
  method CloseBeside(ghost s: Session, f: File, tm: dword) returns (res: Result, ghost t: Session)
    requires s.Valid() && f in s.files
    modifies f.fs`disk, f.fs`wflag, f.fs`winsect, f.fs`fsiDirty, f.fs.win, f`dirty, f`modified, f`isOpen
    ensures res == Ok && t.Ordered() && SightOf(f) == old(SightOf(f)).(flagged := false) && !f.isOpen
    ensures s.UnhitBySync(f) || old(s.OthersHome(f)) ==> t.Valid()
    ensures t == if old(EntryKnows(s, f)) then s.Without(f) else s.Lost(f)
    ensures s.Without(f).Ordered() <==> old(EntryKnows(s, f))
    ensures !old(EntryKnows(s, f)) ==>
      && f.err != Ok && f.chain != [] && Leaked(t, f.chain)
      && LdClust(f.fs.g.fsType, s.dj.Content()[s.files[f]]) == 0
    ensures OneSlot(old(s.dj.Content()), s.dj.Content(), s.files[f])
    ensures StillUsed(old(s.dj.Content())[s.files[f]], s.dj.Content()[s.files[f]])
    ensures old(f.modified) || f.err == Ok ==>
      FileAt(f.fs.g, f.fs.Vol(), s.dj.Content()[s.files[f]], f.chain, f.contents)
    ensures if old(f.modified) then !f.fs.wflag && f.fs.disk == f.fs.Vol()
            else f.fs.disk == old(f.fs.disk) && f.fs.wflag == old(f.fs.wflag)
    ensures s.Spares(s.dj.fs.g, old(s.dj.fs.Vol()), s.dj.fs.Vol())
    ensures SameBoot(s.dj.fs.g, old(s.dj.fs.Vol()), s.dj.fs.Vol())
    ensures f.fs.FatSeq() == old(f.fs.FatSeq())
  {
    hide Volume.Valid, Volume.Vol, Dir.Valid, File.Valid, WellFormed, Owned, Catalog, Fat, RecordEntry, FileHeld,
         LdClust, FileSize;
    hide Session.Spares, Session.OthersHome, Session.Closed, Spared, SameBoot, HasBit, Dir.Content,
         File.Placed, Session.UnhitBySync, Leaked;
    hide Session.Ordered, Session.Distinct, Slotted;
    s.Separate(f);
    s.ToldBefore(f);
    res := SettleBeside(s, f, tm, true);
    s.OrderSettled(f);
    s.RestDistinct(f);
    s.ClosedKnows(f);
    t := if old(EntryKnows(s, f)) then s.Without(f) else s.Lost(f);
    if s.UnhitBySync(f) || old(s.OthersHome(f)) {
      s.RestSlotted(f);
      t.Stayed();
    }
    if !old(EntryKnows(s, f)) {
      LostLeaks(s, f);
    }
  }

  // ---- f_open beside open files

  /** Slots may be appended, and slot i written. */
  ghost predicate OnlySlot(slots: seq<Entry32>, slots': seq<Entry32>, i: nat) {
    |slots| <= |slots'| && forall j :: 0 <= j < |slots| && j != i ==> slots'[j] == slots[j]
  }

  /** Slot i was free, or had the name already. */
  ghost predicate OwnSlot(slots: seq<Entry32>, i: nat, name: Name11) {
    i < |slots| ==> IsFree(slots[i]) || slots[i][..11] == name
  }

  /** The entry of a plain file under a name. */
  ghost predicate PlainEntry(e: Entry32, name: Name11) {
    e[..11] == name && !IsFree(e) && !HasBit(e[DIR_ATTR], AM_VOL) && !HasBit(e[DIR_ATTR], AM_DIR)
  }

  lemma RegisteredSlots(slots: seq<Entry32>, name: Name11, i: nat, slots': seq<Entry32>)
    requires Registered(slots, name, i, slots')
    ensures i < |slots'| && OnlySlot(slots, slots', i) && (i < |slots| ==> IsFree(slots[i]))
    ensures i >= |slots| ==> FirstFree(slots, 0) == None
  {
    hide FirstFree;
    var mid := MidOf(slots, name, i, slots');
    FirstFreeIsFirst(mid, 0, i);
    if FirstFree(slots, 0).Some? {
      assert mid[FirstFree(slots, 0).value] == slots[FirstFree(slots, 0).value];
    }
  }

  /** The name of the object is there, or a slot for it. */
  ghost predicate Roomy(slots: seq<Entry32>, name: Name11) {
    Directory.Find(slots, name, 0).Some? || FirstFree(slots, 0).Some?
  }

  lemma SlotWasThere(slots: seq<Entry32>, name: Name11, i: nat, slots': seq<Entry32>)
    requires Roomy(slots, name) && i < |slots'|
    requires Directory.Find(slots, name, 0) == None ==> Registered(slots, name, i, slots'[i := NewEntry(name)])
    ensures Directory.Find(slots, name, 0) == None ==> i < |slots|
  {
    hide Directory.Find, FirstFree, Registered;
    if Directory.Find(slots, name, 0) == None {
      RegisteredSlots(slots, name, i, slots'[i := NewEntry(name)]);
    }
  }

  /** f_open takes no cluster when there is a slot: it gives back those of an overwritten file. */
  lemma OpenFrees(fat: seq<nat>, fat': seq<nat>, found: bool, dropped: bool, ch: seq<nat>, dch: seq<nat>,
                  dch': seq<nat>)
    requires found ==> Holds(fat, ch)
    requires if found then (if dropped then Cut(fat, ch, 0, fat') else fat' == fat)
             else dch' == dch && Extended(fat, dch, fat', dch')
    ensures FreeCount(fat') >= FreeCount(fat)
  {
    hide FreeCount, IsChain;
    if found && dropped {
      CutCount(fat, ch, 0, fat');
    }
  }

  /** What f_open does to the slots. */
  lemma OpenedSlots(mode: OpenMode, t: FatType, tm: dword, name: Name11, slots: seq<Entry32>, slots': seq<Entry32>,
                    i: nat,
                    bytes: seq<byte>, contents: seq<byte>, modified: bool, fptr: nat)
    requires i < |slots'| && Opened(mode, t, tm, name, slots, slots', i, bytes, contents, modified, fptr)
    requires WellFormed(slots) && Proper(name)
    ensures WellFormed(slots') && OnlySlot(slots, slots', i) && PlainEntry(slots'[i], name)
    ensures Directory.Find(slots', name, 0) == Some(i)
    ensures (Directory.Find(slots, name, 0) == None && i < |slots| ==> IsFree(slots[i])) && OwnSlot(slots, i, name)
    ensures Inserted(slots, name, i, slots')
  {
    hide WellFormed, Registered, ResetEntry, NewEntry;
    OpenedInserts(mode, t, tm, name, slots, slots', i, bytes, contents, modified, fptr);
    assert slots'[i][0] == slots'[i][..11][0];
    if Directory.Find(slots, name, 0) == None {
      RegisteredSlots(slots, name, i, slots'[i := NewEntry(name)]);
    }
  }

  /** What f_open does to the owners. */
  lemma OpenedOwned(fat: seq<nat>, fat': seq<nat>, owners: map<nat, seq<nat>>, bad: set<nat>, found: bool,
                    dropped: bool, i: nat, dch: seq<nat>)
    requires Owned(fat, owners, bad) && 0 in owners
    requires if found then
        && Owner(i) in owners && dch == owners[0]
        && (if dropped then Cut(fat, owners[Owner(i)], 0, fat') else fat' == fat)
             else Owner(i) !in owners && dropped && Extended(fat, owners[0], fat', dch)
    ensures Owned(fat', owners[0 := dch][Owner(i) := if dropped then [] else owners[Owner(i)]], bad)
  {
    hide Owned, Cut, Extended;
    if !found {
      ExtendKeepsOwned(fat, owners, bad, 0, fat', dch);
      StepKeepsOwned(State(fat', owners[0 := dch]), New(Owner(i)), bad);
    } else {
      var o := owners[0 := dch];
      assert o == owners;
      if dropped {
        CutKeepsOwned(fat, owners, bad, Owner(i), 0, fat');
        assert owners[Owner(i)][..0] == [];
      } else {
        assert o[Owner(i) := owners[Owner(i)]] == owners;
      }
    }
  }

  lemma TablePrefix(g: Geo, sclust: nat, ch: seq<nat>, ch': seq<nat>)
    requires InArea(g, ch) && InArea(g, ch') && ch <= ch'
    ensures Table(g, sclust, ch) <= Table(g, sclust, ch')
  {
    hide Sectors;
    SectorsPrefix(g, ch, ch');
  }

  lemma CatalogOpened(t: FatType, slots: seq<Entry32>, slots': seq<Entry32>, files: map<File, nat>, owners: map<nat,
                      seq<nat>>,
                      fp: File, i: nat, name: Name11, dch: seq<nat>, ch: seq<nat>)
    requires Catalog(t, slots, files.Values, owners) && i < |slots'| && OnlySlot(slots, slots', i)
    requires PlainEntry(slots'[i], name)
    requires fp !in files
    ensures Catalog(t, slots', files[fp := i].Values, owners[0 := dch][Owner(i) := ch])
  {
    hide HasBit, LdClust;
    assert files[fp := i][fp] == i;
    forall j | j in files.Values
      ensures j in files[fp := i].Values
    {
      var h :| h in files && files[h] == j;
      assert files[fp := i][h] == j;
    }
  }

  /** The new file has the slot its name was found at or registered in. */
  lemma OpenedSlotted(dj: Dir, mode: OpenMode, fp: File, i: nat, name: Name11, owners: map<nat, seq<nat>>)
    requires dj.Valid() && OpenFile(dj, mode, i, fp) && PlainEntry(dj.Content()[i], name)
    requires Owner(i) in owners && owners[Owner(i)] == fp.chain && Told(dj.fs.g.fsType, dj.Content()[i], fp)
    ensures fp.fs == dj.fs && Slotted(dj, fp, i, owners) && fp.Home()
  {
    hide Dir.Valid, File.Valid, File.Placed, HasBit, Told, Dir.Content;
    SlotOffset(i);
  }

  lemma FreshTold(dj: Dir, mode: OpenMode, fp: File, i: nat)
    requires dj.Valid() && OpenFile(dj, mode, i, fp)
    requires !fp.modified ==>
      FileSize(dj.Content()[i]) == |fp.contents| && LdClust(dj.fs.g.fsType, dj.Content()[i]) == StartOf(fp.chain)
    ensures fp.fs == dj.fs && Told(dj.fs.g.fsType, dj.Content()[i], fp)
  {
    hide Dir.Valid, File.Core, File.Placed, FileSize, LdClust, Dir.Content;
  }

  /** On a full volume no chain grows. */
  lemma FullStays(fat: seq<nat>, ch: seq<nat>, fat': seq<nat>, ch': seq<nat>)
    requires Extended(fat, ch, fat', ch')
    ensures Full(fat) ==> fat' == fat
  {
    if |ch| < |ch'| {
      assert fat[ch'[|ch|]] == 0;
    }
  }

  /** The file f_open gives, and what it has done to the slots: one has the name, and the others are what they were. */
  twostate predicate OpenedAs(dj: Dir, mode: OpenMode, tm: dword, bytes: seq<byte>, new fp: File, i: nat)
    requires dj.Valid() && old(dj.Valid())
    reads dj, dj.fs, dj.fs.win, fp, fp.buf, fp.fs, fp.fs.win
    ensures OpenedAs(dj, mode, tm, bytes, fp, i) ==> i < |dj.Content()|
  {
    && OpenFile(dj, mode, i, fp)
    && Opened(mode, dj.fs.g.fsType, tm, dj.fn, old(dj.Content()), dj.Content(), i, bytes, fp.contents, fp.modified,
              fp.fptr)
    && WellFormed(dj.Content()) && OnlySlot(old(dj.Content()), dj.Content(), i) && PlainEntry(dj.Content()[i], dj.fn)
    && OwnSlot(old(dj.Content()), i, dj.fn) && Inserted(old(dj.Content()), dj.fn, i, dj.Content())
    && (fp.modified ==> fp.chain == [])
  }

  /**
    What f_open costs: a right count stays right, no error values appear; clusters
    are taken only for a directory without a free slot, and never on a full
    volume; nothing at all is changed when nothing is done.
    */
  twostate predicate OpenCosts(dj: Dir, done: bool)
    requires dj.Valid() && old(dj.Valid())
    reads dj, dj.fs, dj.fs.win
  {
    && (old(CountRight(dj.fs.freeClst, dj.fs.FatSeq())) ==> CountRight(dj.fs.freeClst, dj.fs.FatSeq()))
    && (!old(Damaged(dj.fs.FatSeq())) ==> !Damaged(dj.fs.FatSeq()))
    && (if done then
          && (old(Roomy(dj.Content(), dj.fn)) ==> FreeCount(dj.fs.FatSeq()) >= old(FreeCount(dj.fs.FatSeq())))
          && (old(Directory.Find(dj.Content(), dj.fn, 0)) == None && old(Full(dj.fs.FatSeq())) ==>
                dj.fs.FatSeq() == old(dj.fs.FatSeq()))
        else
          && dj.chain == old(dj.chain) && dj.fs.Vol() == old(dj.fs.Vol()) && dj.Content() == old(dj.Content())
          && (dj.fs.wflag ==> old(dj.fs.wflag)))
  }

  /** f_open as its directory sees it: owners and slots. */
  method OpenStep(ghost s: Session, dj: Dir, mode: OpenMode, tm: dword, ghost bytes: seq<byte>)
    returns (res: Result, fp: File?, ghost i: nat)
    requires dj == s.dj && s.Valid() && s.Openable(mode, bytes) && Proper(dj.fn)
    modifies dj.fs`disk, dj.fs`wflag, dj.fs`winsect, dj.fs`freeClst, dj.fs`lastClst, dj.fs`fsiDirty, dj.fs.win
    modifies dj`chain, dj`attr, dj`dptr, dj`clust, dj`sect, dj`dir
    ensures dj.Valid() && (res == Ok <==> fp != null) && OpenCosts(dj, fp != null)
    ensures OpenAnswered(mode, dj.fn, old(dj.Content()), res)
    ensures ReadOnlyKept(dj)
    ensures OnlyTable(dj.fs.g, old(dj.fs.Vol()), dj.fs.Vol(), dj.Tbl())
    ensures dj.fs.winsect == old(dj.fs.winsect) || dj.Inside()
    ensures fp == null ==> dj.chain == old(dj.chain) && dj.Unallocated() && dj.Content() == old(dj.Content())
    ensures fp == null ==> NotOpened(mode, dj.fn, old(dj.Content()), dj.Content(), res)
    ensures fp != null ==>
      && fresh(fp) && fresh(fp.buf) && OpenedAs(dj, mode, tm, bytes, fp, i)
      && fp.fs == dj.fs && Told(dj.fs.g.fsType, dj.Content()[i], fp)
      && Owned(dj.fs.FatSeq(), s.With(fp, i).owners, s.bad)
      && WellFormed(dj.Content()) && OnlySlot(old(dj.Content()), dj.Content(), i)
      && PlainEntry(dj.Content()[i], dj.fn)
      && old(dj.chain) <= dj.chain
      && (i < |old(dj.Content())| && Owner(i) !in s.owners ==> IsFree(old(dj.Content())[i]))
      && (forall h :: h in s.files ==> s.files[h] != i)
  {
    hide Volume.Valid, Volume.Vol, Dir.Valid, File.Valid, WellFormed, Owned, Catalog, Fat, Slots, Table, DirChain;
    hide Told, HasBit, Dir.Content, File.Placed, OwnSlot, Inserted, Full, Damaged, Extended, Cut, OnlyTable, OpenFile,
         Session.Distinct, Session.Openable, Slotted, CountRight, Target, Directory.Find, Registered, FileHeld, LdClust,
         FileSize, Session.TargetChain, IsFree, FreeCount, Roomy, OpenAnswered, ReadOnlyKept;
    ghost var ch := s.TargetChain();
    s.UsedSlots();
    s.OpenableTarget(mode, bytes);
    res, fp, i := Open(dj, mode, tm, ch, bytes);
    if fp != null {
      OpenedSlots(mode, dj.fs.g.fsType, tm, dj.fn, old(dj.Content()), dj.Content(), i, bytes, fp.contents, fp.modified,
                  fp.fptr);
      if old(Directory.Find(dj.Content(), dj.fn, 0)) == None {
        FullStays(old(dj.fs.FatSeq()), old(dj.chain), dj.fs.FatSeq(), dj.chain);
        if !old(Damaged(dj.fs.FatSeq())) {
          ExtendedUndamaged(old(dj.fs.FatSeq()), old(dj.chain), dj.fs.FatSeq(), dj.chain);
        }
        ExtendedPrefix(old(dj.fs.FatSeq()), old(dj.chain), dj.fs.FatSeq(), dj.chain);
      }
      OpenedOwned(old(dj.fs.FatSeq()), dj.fs.FatSeq(), s.owners, s.bad,
                  old(Directory.Find(dj.Content(), dj.fn, 0)).Some?,
                  mode.createAlways || old(Directory.Find(dj.Content(), dj.fn, 0)) == None, i, dj.chain);
      if old(Roomy(dj.Content(), dj.fn)) {
        SlotWasThere(old(dj.Content()), dj.fn, i, dj.Content());
        OpenFrees(old(dj.fs.FatSeq()), dj.fs.FatSeq(), old(Directory.Find(dj.Content(), dj.fn, 0)).Some?,
                  mode.createAlways, ch, old(dj.chain), dj.chain);
      }
      if old(Directory.Find(dj.Content(), dj.fn, 0)).Some? && mode.createAlways && !old(Damaged(dj.fs.FatSeq())) {
        CutUndamaged(old(dj.fs.FatSeq()), ch, 0, dj.fs.FatSeq());
      }
      FreshTold(dj, mode, fp, i);
    }
  }

  lemma BootKeptByDir(g: Geo, vol: seq<Sector>, vol': seq<Sector>, tbl: seq<nat>)
    requires IsVolume(g, vol) && IsVolume(g, vol') && OnlyTable(g, vol, vol', tbl)
    requires forall s :: s in tbl ==> g.fatbase + g.FatArea() <= s
    ensures SameBoot(g, vol, vol')
  {
    RunsApart(g.csize, 0, g.nFatent - 2);
  }

  /** What is outside the directory, when only that changes. */
  lemma OnlyInTable(dj: Dir, vol: seq<Sector>)
    requires dj.Valid() && IsVolume(dj.fs.g, vol) && OnlyTable(dj.fs.g, vol, dj.fs.Vol(), dj.Tbl())
    ensures InArea(dj.fs.g, []) && OnlyBeside(dj.fs.g, vol, dj.fs.Vol(), dj.Tbl(), [])
    ensures SameBoot(dj.fs.g, vol, dj.fs.Vol())
  {
    hide Dir.Valid, Volume.Vol, SameBoot;
    dj.TblFacts();
    OnlyTableBeside(dj.fs.g, vol, dj.fs.Vol(), dj.Tbl());
    BootKeptByDir(dj.fs.g, vol, dj.fs.Vol(), dj.Tbl());
  }

  /** The volume-wide part of f_open beside open files: what is left alone. */
  method OpenAmong(ghost s: Session, dj: Dir, mode: OpenMode, tm: dword, ghost bytes: seq<byte>)
    returns (res: Result, fp: File?, ghost i: nat, ghost t: Session)
    requires dj == s.dj && s.Valid() && s.Openable(mode, bytes) && Proper(dj.fn)
    modifies dj.fs`disk, dj.fs`wflag, dj.fs`winsect, dj.fs`freeClst, dj.fs`lastClst, dj.fs`fsiDirty, dj.fs.win
    modifies dj`chain, dj`attr, dj`dptr, dj`clust, dj`sect, dj`dir
    ensures dj.Valid() && (res == Ok <==> fp != null) && t == (if fp == null then s else s.With(fp, i))
    ensures OpenCosts(dj, fp != null) && Owned(dj.fs.FatSeq(), t.owners, s.bad) && t.bad == s.bad
    ensures OpenAnswered(mode, dj.fn, old(dj.Content()), res)
    ensures ReadOnlyKept(dj)
    ensures fp == null ==> dj.chain == old(dj.chain) && dj.Content() == old(dj.Content())
    ensures fp == null ==> NotOpened(mode, dj.fn, old(dj.Content()), dj.Content(), res)
    ensures fp != null ==>
      && fresh(fp) && fresh(fp.buf) && OpenedAs(dj, mode, tm, bytes, fp, i)
      && WellFormed(dj.Content()) && OnlySlot(old(dj.Content()), dj.Content(), i)
      && PlainEntry(dj.Content()[i], dj.fn)
      && fp.fs == dj.fs && Told(dj.fs.g.fsType, dj.Content()[i], fp) && forall h :: h in s.files ==> s.files[h] != i
    ensures s.UnhitByDir([]) || old(s.AllHome()) ==> forall h :: h in s.files ==> Slotted(dj, h, s.files[h], s.owners)
    ensures t.Spares(dj.fs.g, old(dj.fs.Vol()), dj.fs.Vol()) && SameBoot(dj.fs.g, old(dj.fs.Vol()), dj.fs.Vol())
  {
    hide Volume.Valid, Volume.Vol, Dir.Valid, File.Valid, WellFormed, Owned, Catalog, Fat, Slots, Table, DirChain;
    hide Told, HasBit, Dir.Content, File.Placed, OwnSlot, Inserted, OnlyTable, OpenFile, NotOpened, Session.Distinct,
         Session.Openable, Slotted, Directory.Find, Opened, PlainEntry, Session.Spares, SameBoot, File.Home, OnlyBeside,
         Holds, Session.Valid, Session.AllHome, Session.Ordered, Session.With, Session.Closed, Session.SameOwners,
         IsFree, Dir.Inside, OpenCosts, OpenAnswered, ReadOnlyKept, OpenedAs, Session.UnhitByDir;
    s.InOrder();
    s.BuffersApart();
    ghost var vol, slots := dj.fs.Vol(), dj.Content();
    res, fp, i := OpenStep(s, dj, mode, tm, bytes);
    dj.OwnChanged();
    t := if fp == null then s else s.With(fp, i);
    if fp != null {
      s.DistinctWith(fp, i);
    }
    s.FilesApart(t);
    TablePrefix(dj.fs.g, dj.sclust, old(dj.chain), dj.chain);
    if old(s.AllHome()) {
      s.HomeIsUnhitByDir([]);
    }
    s.OthersKeptByDir([]);
    dj.Linked();
    OnlyInTable(dj, vol);
    t.ClosedSparedByDir(dj.fs.g, vol, dj.fs.Vol(), dj.sclust, []);
  }

  /** f_open beside open files: one more file is open, and nothing else is disturbed. */
  method OpenBeside(ghost s: Session, dj: Dir, mode: OpenMode, tm: dword, ghost bytes: seq<byte>)
    returns (res: Result, fp: File?, ghost i: nat, ghost t: Session)
    requires dj == s.dj && s.Valid() && s.Openable(mode, bytes) && Proper(dj.fn)
    modifies dj.fs`disk, dj.fs`wflag, dj.fs`winsect, dj.fs`freeClst, dj.fs`lastClst, dj.fs`fsiDirty, dj.fs.win
    modifies dj`chain, dj`attr, dj`dptr, dj`clust, dj`sect, dj`dir
    ensures (res == Ok <==> fp != null) && t.Ordered() && t.Distinct()
    ensures t == if fp == null then s else s.With(fp, i)
    ensures s.UnhitByDir([]) || old(s.AllHome()) ==> t.Valid()
    ensures old(s.AllHome()) ==> t.AllHome()
    ensures OpenCosts(dj, fp != null) && OpenAnswered(mode, dj.fn, old(dj.Content()), res)
    ensures ReadOnlyKept(dj)
    ensures fp == null ==> NotOpened(mode, dj.fn, old(dj.Content()), dj.Content(), res)
    ensures fp != null ==> fresh(fp) && fresh(fp.buf) && OpenedAs(dj, mode, tm, bytes, fp, i)
    ensures t.Spares(dj.fs.g, old(dj.fs.Vol()), dj.fs.Vol()) && SameBoot(dj.fs.g, old(dj.fs.Vol()), dj.fs.Vol())
  {
    hide Volume.Valid, Volume.Vol, Dir.Valid, File.Valid, WellFormed, Owned, Catalog, Fat, Slots, Table, DirChain;
    hide Told, HasBit, Dir.Content, File.Placed, OwnSlot, Inserted, OnlyTable, OpenFile, NotOpened, Session.Openable,
         Slotted, OnlySlot, Directory.Find, Opened, PlainEntry, Session.Spares, SameBoot, File.Home, Holds,
         Session.Closed, Session.Distinct, InArea, IsFree, OpenCosts, OpenAnswered, ReadOnlyKept;
    hide Session.Valid, Session.AllHome, Session.With, Session.SameOwners, Session.UnhitByDir;
    s.InOrder();
    ghost var slots := dj.Content();
    res, fp, i, t := OpenAmong(s, dj, mode, tm, bytes);
    if fp != null {
      s.DistinctWith(fp, i);
      s.OrderedWith(slots, fp, i, dj.fn);
      OpenedSlotted(dj, mode, fp, i, dj.fn, t.owners);
      if s.AllHome() {
        s.JoinedHome(fp, i);
      }
    }
    if s.UnhitByDir([]) || old(s.AllHome()) {
      s.SlotsMoved(t);
      if fp != null {
        s.Joined(fp, i);
      } else {
        s.Stayed();
      }
    }
  }

  // ---- f_unlink beside open files

  lemma OnlyBesideMore(g: Geo, vol: seq<Sector>, vol': seq<Sector>, tbl: seq<nat>, added: seq<nat>)
    requires IsVolume(g, vol) && IsVolume(g, vol') && InArea(g, []) && InArea(g, added)
    requires OnlyBeside(g, vol, vol', tbl, [])
    ensures OnlyBeside(g, vol, vol', tbl, added)
  {
  }

  lemma BootKeptBeside(g: Geo, vol: seq<Sector>, vol': seq<Sector>, tbl: seq<nat>, added: seq<nat>)
    requires IsVolume(g, vol) && IsVolume(g, vol') && InArea(g, added) && OnlyBeside(g, vol, vol', tbl, added)
    requires forall s :: s in tbl ==> g.fatbase + g.FatArea() <= s
    ensures SameBoot(g, vol, vol')
  {
    hide Sectors;
    if g.volbase in Sectors(g, added) {
      SectorsInData(g, added, g.volbase);
    }
    RunsApart(g.csize, 0, g.nFatent - 2);
  }

  /** An object is deleted: its clusters are free, and it is no owner any more. */
  lemma DeletedOwned(fat: seq<nat>, fat': seq<nat>, owners: map<nat, seq<nat>>, bad: set<nat>, k: nat)
    requires Owned(fat, owners, bad) && k in owners && Cut(fat, owners[k], 0, fat')
    ensures Owned(fat', owners - {k}, bad)
  {
    hide Owned, Cut;
    CutKeepsOwned(fat, owners, bad, k, 0, fat');
    var o := owners[k := []];
    assert owners[k][..0] == [];
    StepKeepsOwned(State(fat', o), Gone(k), bad);
    assert o - {k} == owners - {k};
  }

  /** A deleted entry keeps the directory well formed, and the catalog without its owner. */
  lemma CatalogDeleted(t: FatType, slots: seq<Entry32>, files: map<File, nat>, owners: map<nat, seq<nat>>, name: Name11,
                       i: nat)
    requires WellFormed(slots) && Proper(name) && Directory.Find(slots, name, 0) == Some(i)
    requires Catalog(t, slots, files.Values, owners)
    ensures WellFormed(slots[i := Directory.Deleted(slots[i])])
    ensures Catalog(t, slots[i := Directory.Deleted(slots[i])], files.Values, owners - {Owner(i)})
  {
    hide WellFormed, HasBit, LdClust, Directory.Find, Directory.Deleted;
    RemoveLoses(slots, i, name);
  }

  lemma BootBeside(dj: Dir, vol: seq<Sector>, added: seq<nat>)
    requires dj.Valid() && IsVolume(dj.fs.g, vol) && InArea(dj.fs.g, added)
    requires OnlyBeside(dj.fs.g, vol, dj.fs.Vol(), dj.Tbl(), added)
    ensures SameBoot(dj.fs.g, vol, dj.fs.Vol())
  {
    hide Dir.Valid, Volume.Vol, SameBoot;
    dj.TblFacts();
    BootKeptBeside(dj.fs.g, vol, dj.fs.Vol(), dj.Tbl(), added);
  }

  /** f_unlink beside open files: they, the other objects and the boot record are not disturbed. */
  method UnlinkBeside(ghost s: Session, dj: Dir) returns (res: Result, ghost t: Session)
    requires dj == s.dj && s.Valid() && s.Unlinkable() && Proper(dj.fn)
    modifies dj.fs`disk, dj.fs`wflag, dj.fs`winsect, dj.fs`freeClst, dj.fs`lastClst, dj.fs`fsiDirty, dj.fs.win
    modifies dj`chain, dj`attr, dj`dptr, dj`clust, dj`sect, dj`dir
    ensures t.Ordered() && t.Distinct() && t == if res == Ok then s.Deleted(old(s.TargetOwner())) else s
    ensures s.UnhitByDir(old(s.TargetChain())) || old(s.AllHome()) ==> t.Valid()
    ensures old(s.AllHome()) ==> t.AllHome()
    ensures match old(Directory.Find(dj.Content(), dj.fn, 0))
      case None => res == NoFile && dj.Content() == old(dj.Content())
      case Some(k) =>
        if res == Ok then
          && dj.Content() == old(dj.Content())[k := Directory.Deleted(old(dj.Content())[k])]
          && dj.fs.disk == dj.fs.Vol()
        else res == Denied && dj.Content() == old(dj.Content())
    ensures var k := old(Directory.Find(dj.Content(), dj.fn, 0));
      k.Some? ==> UnlinkAnswered(old(dj.Content())[k.value][11], old(s.TargetSlots()), res)
    ensures t.Spares(dj.fs.g, old(dj.fs.Vol()), dj.fs.Vol()) && SameBoot(dj.fs.g, old(dj.fs.Vol()), dj.fs.Vol())
    ensures old(CountRight(dj.fs.freeClst, dj.fs.FatSeq())) ==> CountRight(dj.fs.freeClst, dj.fs.FatSeq())
    ensures res == old(s.UnlinkAnswer())
  {
    hide Volume.Valid, Volume.Vol, Dir.Valid, File.Valid, WellFormed, Owned, Catalog, Fat, Slots, Table, DirChain,
         Sectors;
    hide HasBit, Dir.Content, Directory.Find, EmptyDirectory, ObjectAt, Session.Unlinkable, Session.TargetChain,
         Session.Valid, Session.AllHome, Slotted, Session.Spares, SameBoot, File.Home, Holds, Session.Distinct,
         CountRight, Cut, Directory.Deleted, OnlyBeside, Session.Closed, Session.SameOwners, UnlinkAnswered;
    s.InOrder();
    s.BuffersApart();
    s.UnlinkableObject();
    ghost var ch, k, fat, vol, slots := s.TargetChain(), Directory.Find(dj.Content(), dj.fn,
                                                      0), dj.fs.FatSeq(), dj.fs.Vol(), dj.Content();
    res := UnlinkObject(dj, ch);
    t := if res == Ok then s.Deleted(old(s.TargetOwner())) else s;
    if res == Ok {
      s.DeletedFacts(Owner(k.value));
      DeletedOwned(fat, dj.fs.FatSeq(), s.owners, s.bad, Owner(k.value));
      CatalogDeleted(dj.fs.g.fsType, slots, s.files, s.owners, dj.fn, k.value);
    }
    s.FilesApart(t);
    OnlyBesideMore(dj.fs.g, vol, dj.fs.Vol(), dj.Tbl(), ch);
    s.DirChanged(ch);
    if old(s.AllHome()) {
      s.HomeIsUnhitByDir(ch);
    }
    s.HomesAs(t);
    s.OthersKeptByDir(ch);
    if s.UnhitByDir(ch) {
      s.SlotsMoved(t);
      t.Stayed();
    }
    dj.Linked();
    BootBeside(dj, vol, []);
    t.ClosedSparedByDir(dj.fs.g, vol, dj.fs.Vol(), dj.sclust, []);
  }

  // ---- f_mkdir beside open files

  /** The entry of a directory that starts at cluster dcl. */
  ghost predicate DirectoryEntry(t: FatType, e: Entry32, name: Name11, dcl: nat) {
    e[..11] == name && !IsFree(e) && !HasBit(e[DIR_ATTR], AM_VOL) && HasBit(e[DIR_ATTR], AM_DIR) && LdClust(t, e) == dcl
  }

  /** What f_mkdir does to the slots. */
  lemma MadeSlots(t: FatType, slots: seq<Entry32>, slots': seq<Entry32>, name: Name11, i: nat, tm: nat, dcl: nat)
    requires WellFormed(slots) && Proper(name) && Directory.Find(slots, name, 0) == None
    requires i < |slots'| && slots'[i] == DirEntry(t, NewEntry(name), tm, dcl)
    requires Registered(slots, name, i, slots'[i := NewEntry(name)])
    requires dcl < (if t.FAT32? then 0x1_0000_0000 else 0x1_0000)
    ensures WellFormed(slots') && OnlySlot(slots, slots', i) && DirectoryEntry(t, slots'[i], name, dcl)
    ensures Inserted(slots, name, i, slots') && (i < |slots| ==> IsFree(slots[i]))
  {
    hide WellFormed, Registered, DirEntry, NewEntry, Inserted, LdClust;
    var mid := slots'[i := NewEntry(name)];
    NewEntryReads(t, name);
    DirEntryReads(t, NewEntry(name), tm, dcl);
    RegisteredSlots(slots, name, i, mid);
    RegisteredInserts(slots, name, i, mid);
    InsertedFinds(slots, name, i, mid);
    RefreshKeeps(mid, name, i, slots'[i]);
    assert slots' == mid[i := slots'[i]];
    InsertedTwice(slots, mid, slots', name, i);
    InsertedFinds(slots, name, i, slots');
    assert slots'[i][0] == slots'[i][..11][0];
  }

  lemma CatalogMade(t: FatType, slots: seq<Entry32>, slots': seq<Entry32>, files: map<File, nat>, owners: map<nat,
                    seq<nat>>,
                    i: nat, name: Name11, dch: seq<nat>, dcl: nat)
    requires Catalog(t, slots, files.Values, owners) && i < |slots'| && OnlySlot(slots, slots', i)
    requires DirectoryEntry(t, slots'[i], name, dcl)
    requires Owner(i) !in owners
    ensures Catalog(t, slots', files.Values, owners[Owner(i) := [dcl]][0 := dch])
  {
    hide HasBit, LdClust;
  }

  /** A cluster that was free belongs to no owner. */
  lemma FreeApart(fat: seq<nat>, owners: map<nat, seq<nat>>, dcl: nat)
    requires forall k :: k in owners ==> Holds(fat, owners[k])
    requires dcl != 0 ==> dcl < |fat| && fat[dcl] == 0
    ensures forall k :: k in owners ==> Apart(owners[k], NewChain(dcl))
  {
    hide IsChain;
    forall k, c | k in owners && c in owners[k]
      ensures c !in NewChain(dcl)
    {
      LinkNotFree(fat, owners[k], c);
    }
  }

  /** f_mkdir beside open files: they, the closed objects and the boot record are not disturbed. */
  method MkdirBeside(ghost s: Session, dj: Dir, tm: dword)
    returns (res: Result, ghost i: nat, ghost dcl: nat, ghost t: Session)
    requires dj == s.dj && s.Valid() && Proper(dj.fn)
    modifies dj.fs`disk, dj.fs`wflag, dj.fs`winsect, dj.fs`freeClst, dj.fs`lastClst, dj.fs`fsiDirty, dj.fs.win
    modifies dj`chain, dj`attr, dj`dptr, dj`clust, dj`sect, dj`dir
    ensures t.Ordered() && t.Distinct() && t == if res == Ok then s.Made(i, dcl) else s
    ensures s.UnhitByDir(NewChain(dcl)) || old(s.AllHome()) ==> t.Valid()
    ensures old(s.AllHome()) ==> t.AllHome()
    ensures res == Ok || res == Exist || res == Denied || res == IntErr
    ensures res == Exist <==> old(Directory.Find(dj.Content(), dj.fn, 0)).Some?
    ensures res != Ok ==> dj.fs.FatSeq() == old(dj.fs.FatSeq()) && dj.Content() == old(dj.Content())
    ensures res == Ok ==>
      && i < |dj.Content()| && OnlySlot(old(dj.Content()), dj.Content(), i)
      && DirectoryEntry(dj.fs.g.fsType, dj.Content()[i], dj.fn, dcl)
      && Inserted(old(dj.Content()), dj.fn, i, dj.Content())
      && NewDirAt(dj.fs.g, dj.fs.Vol(), tm, dcl, dj.sclust) && !dj.fs.wflag && dj.fs.disk == dj.fs.Vol()
    ensures s.Spares(dj.fs.g, old(dj.fs.Vol()), dj.fs.Vol()) && SameBoot(dj.fs.g, old(dj.fs.Vol()), dj.fs.Vol())
    ensures old(CountRight(dj.fs.freeClst, dj.fs.FatSeq())) ==> CountRight(dj.fs.freeClst, dj.fs.FatSeq())
    ensures res == Denied ==> FirstFree(dj.Content(), 0) == None || old(dj.fs.freeClst) == 0 || Full(dj.fs.FatSeq())
    ensures res == IntErr ==> FirstFree(dj.Content(), 0) == None || Damaged(dj.fs.FatSeq())
  {
    hide Volume.Valid, Volume.Vol, Dir.Valid, File.Valid, WellFormed, Owned, Catalog, Fat, Slots, Table, DirChain,
         Sectors;
    hide HasBit, Dir.Content, Directory.Find, Session.Valid, Session.AllHome, Slotted, Session.Spares, SameBoot,
         File.Home, Holds, Session.Distinct, CountRight, OnlyBeside, Session.Closed, Session.SameOwners, Extended,
         NewDirAt, DirEntry, NewEntry, Registered, Inserted, DirectoryEntry, Session.UnhitByDir, Full, Damaged,
         FirstFree;
    s.InOrder();
    s.BuffersApart();
    s.UsedSlots();
    ghost var fat, vol, slots, dch, fat1 := dj.fs.FatSeq(), dj.fs.Vol(), dj.Content(), dj.chain, dj.fs.FatSeq();
    res, i, dcl, fat1 := CreateDirectory(dj, tm);
    t := if res == Ok then s.Made(i, dcl) else s;
    if res == Ok {
      StartFits(dj.fs.g, NewChain(dcl));
      MadeSlots(dj.fs.g.fsType, slots, dj.Content(), dj.fn, i, tm, dcl);
      s.MadeFacts(i, dcl);
      CreateDirectoryKeepsOwned(fat, s.owners, s.bad, 0, Owner(i), fat1, dcl, dj.fs.FatSeq(), dj.chain);
      CatalogMade(dj.fs.g.fsType, slots, dj.Content(), s.files, s.owners, i, dj.fn, dj.chain, dcl);
      ExtendedPrefix(fat1, dch, dj.fs.FatSeq(), dj.chain);
    }
    FreeApart(fat, s.owners, dcl);
    s.FilesApart(t);
    s.DirChanged(NewChain(dcl));
    TablePrefix(dj.fs.g, dj.sclust, dch, dj.chain);
    if old(s.AllHome()) {
      s.HomeIsUnhitByDir(NewChain(dcl));
    }
    s.HomesAs(t);
    s.OthersKeptByDir(NewChain(dcl));
    if s.UnhitByDir(NewChain(dcl)) {
      s.SlotsMoved(t);
      t.Stayed();
    }
    dj.Linked();
    BootBeside(dj, vol, NewChain(dcl));
    s.ClosedSparedBeside(dj.fs.g, vol, dj.fs.Vol(), dj.sclust, NewChain(dcl), t.owners);
  }

  // ---- runs of calls

  /** At most the entry in slot i is rewritten, under the same name. */
  ghost predicate Rewritten(slots: seq<Entry32>, slots': seq<Entry32>, i: nat) {
    OneSlot(slots, slots', i) && i < |slots| && (slots'[i] == slots[i] || StillUsed(slots[i], slots'[i]))
  }

  /** Any call on one of several open files. */
  method StepBeside(ghost s: Session, f: File, call: Call) returns (r: Answer, ghost t: Session)
    requires s.Valid() && f in s.files && s.OthersHome(f)
    modifies f.fs`disk, f.fs`wflag, f.fs`winsect, f.fs`freeClst, f.fs`lastClst, f.fs`fsiDirty, f.fs.win, f, f.buf
    ensures t.Valid() && t == s.After(f) && Owner(s.files[f]) in s.owners && f.Valid()
    ensures Follows(call, old(SightOf(f)), r, SightOf(f)) && Paid(f, call, r)
    ensures call.WriteCall? ==> f.WrittenBy(|call.data|, r.res, r.count)
    ensures Rewritten(old(s.dj.Content()), s.dj.Content(), s.files[f])
    ensures s.Spares(s.dj.fs.g, old(s.dj.fs.Vol()), s.dj.fs.Vol())
    ensures SameBoot(s.dj.fs.g, old(s.dj.fs.Vol()), s.dj.fs.Vol())
    ensures old(f.Home()) && (call.TruncateCall? ==> old(f.StaysHome())) ==> f.Home()
  {
    hide Volume.Valid, Volume.Vol, Dir.Valid, File.Valid, Session.Valid, Session.Spares, Session.OthersHome, SameBoot,
         File.Home, File.StaysHome, Slotted, Session.Ordered, Session.Distinct, Dir.Content, FileAt, StillUsed,
         Session.After, Owned, WellFormed, HasBit, IsFree, Holds, Apart, Session.Closed, InArea, CountRight, Splice;
    s.Separate(f);
    if call.SyncCall? {
      var res := SyncBeside(s, f, call.tm);
      r := Answer(res, 0, []);
      s.Unmoved(f);
      t := s;
    } else {
      r := CallBeside(s, f, call);
      t := s.After(f);
    }
  }

  lemma SameBootTrans(g: Geo, vol0: seq<Sector>, vol1: seq<Sector>, vol2: seq<Sector>)
    requires SameBoot(g, vol0, vol1) && SameBoot(g, vol1, vol2)
    ensures SameBoot(g, vol0, vol2)
  {
  }

  /** An aborted f_write would stop inside the old size, with nothing new in the buffer: the entry stays right. */
  ghost predicate Harmless(f: File, data: Piece)
    requires f.Valid()
    reads f, f.buf, f.fs, f.fs.win
  {
    && f.fs.g.csize > 0
    && var end := Bound(f.fs.g.csize, |f.Room(Needed(f, |data|)).ch|);
      && end <= |f.contents|
      && (f.fptr % SECTOR_SIZE != 0 && end - f.fptr < SECTOR_SIZE ==> SameBytes(f.contents, f.fptr, data, end - f.fptr))
  }

  /** The first n bytes of data are at position p already. */
  predicate SameBytes(bytes: seq<byte>, p: nat, data: seq<byte>, n: int) {
    p + n <= |bytes| && forall k :: 0 <= k < n && k < |data| ==> bytes[p + k] == data[k]
  }

  lemma SameBytesSplice(bytes: seq<byte>, p: nat, data: seq<byte>, n: nat)
    requires p + n <= |bytes| && n <= |data|
    ensures Splice(bytes, p, data[..n]) == bytes <==> SameBytes(bytes, p, data, n)
  {
    var r := Splice(bytes, p, data[..n]);
    assert forall k :: 0 <= k < n ==> r[p + k] == data[k];
    assert SameBytes(bytes, p, data, n) ==> r == bytes;
  }

  lemma RepUnique(vol: seq<Sector>, secs: seq<nat>, a: seq<byte>, b: seq<byte>)
    requires FileRep(vol, secs, a) && |a| == |b|
    ensures FileRep(vol, secs, b) <==> a == b
  {
  }

  /** The bytes of a file stay when only the table changes. */
  lemma HeldBesideTable(g: Geo, vol: seq<Sector>, vol': seq<Sector>, ch: seq<nat>, bytes: seq<byte>)
    requires FileHeld(g, vol, ch, bytes) && IsVolume(g, vol') && SameOutsideFats(g, vol, vol')
    requires Holds(Fat(g, vol'), ch)
    ensures FileHeld(g, vol', ch, bytes)
  {
    hide Sectors, Fat, Holds, FileRep;
    forall s | s in Sectors(g, ch) && s < |vol|
      ensures vol'[s] == vol[s]
    {
      SectorsInData(g, ch, s);
    }
    RepFrame(vol, Sectors(g, ch), bytes, vol');
  }

  /** What an entry that described the file before an aborted f_write says about it after. */
  lemma AbortedAt(g: Geo, vol: seq<Sector>, vol': seq<Sector>, e: Entry32, ch: seq<nat>, ch': seq<nat>,
                  bytes: seq<byte>,
                  bytes': seq<byte>, end: nat, dirty: bool)
    requires FileAt(g, vol, e, ch, bytes) && IsVolume(g, vol') && Holds(Fat(g, vol'), ch') && InArea(g, ch')
    requires ch <= ch' && |bytes| <= Bound(g.csize, |ch|) && end == Bound(g.csize, |ch'|) && g.csize > 0
    requires |bytes'| == (if end > |bytes| then end else |bytes|)
    requires if dirty then SameOutsideFats(g, vol, vol') else FileHeld(g, vol', ch', bytes')
    ensures FileAt(g, vol', e, ch', bytes') <==> end <= |bytes| && (!dirty || bytes' == bytes)
    ensures end <= |bytes| ==> ch' == ch
  {
    hide Sectors, Fat, Holds, FileRep, FileSize, LdClust, Bound, InArea, SameOutsideFats;
    BoundMono(g.csize, |ch|, |ch'|);
    if end <= |bytes| {
      assert |ch'| == |ch|;
      assert ch' == ch;
    }
    if end <= |bytes| && dirty {
      HeldBesideTable(g, vol, vol', ch, bytes);
      RepUnique(vol', Sectors(g, ch), bytes, bytes');
    }
  }

  /** The same, with the bytes the write stored. */
  lemma AbortedMeans(g: Geo, vol: seq<Sector>, vol': seq<Sector>, e: Entry32, ch: seq<nat>, ch': seq<nat>,
                     bytes: seq<byte>, at: nat, data: seq<byte>, count: nat, dirty: bool)
    requires FileAt(g, vol, e, ch, bytes) && IsVolume(g, vol') && Holds(Fat(g, vol'), ch') && InArea(g, ch')
    requires ch <= ch' && |bytes| <= Bound(g.csize, |ch|) && at + count == Bound(g.csize, |ch'|) && g.csize > 0
    requires at <= |bytes| && count <= |data| && dirty == (at % SECTOR_SIZE != 0 && count < SECTOR_SIZE)
    requires if dirty then SameOutsideFats(g, vol, vol')
             else FileHeld(g, vol', ch', Splice(bytes, at, data[..count]))
    ensures FileAt(g, vol', e, ch', Splice(bytes, at, data[..count])) <==>
      at + count <= |bytes| && (dirty ==> SameBytes(bytes, at, data, count))
    ensures at + count <= |bytes| ==> ch' == ch
  {
    hide FileAt, FileHeld, Fat, Holds, Bound, InArea, SameOutsideFats, Splice, SameBytes;
    AbortedAt(g, vol, vol', e, ch, ch', bytes, Splice(bytes, at, data[..count]), at + count, dirty);
    if at + count <= |bytes| {
      SameBytesSplice(bytes, at, data, count);
    }
  }

  /** A write that was aborted, and the entry that described the file before. */
  datatype Tried = Tried(f: File, data: Piece, r: Answer, e: Entry32)

  lemma WriteSaw(data: Piece, x: Sight, r: Answer, y: Sight)
    requires Follows(WriteCall(data), x, r, y) && x.err == Ok && x.writing
    ensures x.at <= |x.bytes| && r.count <= |data| && y.bytes == Splice(x.bytes, x.at, data[..r.count])
    ensures y.err == r.res
  {
    hide Splice;
  }

  /** How an aborted write leaves things, in the terms of AbortedMeans. */
  twostate lemma AbortLeaves(w: Tried)
    requires w.f.Valid() && old(w.f.Valid()) && old(w.f.err == Ok && !w.f.dirty) && w.f.canWrite && w.f.isOpen
    requires w.f.err != Ok && w.f.AbortedBy(|w.data|, w.r.count)
    ensures old(w.f.chain) <= w.f.chain && old(w.f.fptr) + w.r.count == Bound(w.f.fs.g.csize, |w.f.chain|)
    ensures w.f.fs.g.csize > 0 && w.f.dirty == (old(w.f.fptr) % SECTOR_SIZE != 0 && w.r.count < SECTOR_SIZE)
    ensures w.f.chain == old(w.f.Room(Needed(w.f, |w.data|))).ch
    ensures if w.f.dirty then SameOutsideFats(w.f.fs.g, old(w.f.fs.Vol()), w.f.fs.Vol())
            else FileHeld(w.f.fs.g, w.f.fs.Vol(), w.f.chain, w.f.contents)
    ensures Holds(w.f.fs.FatSeq(), w.f.chain)
    ensures w.f.chain == old(w.f.chain) ==> (w.f.fs.wflag ==> old(w.f.fs.wflag))
  {
    hide Volume.Valid, Volume.Vol, Fat, FileRep, Sectors, Holds, File.Room, FileState, SameOutsideFats, ClustersFor,
         Bound, File.OnCluster, File.OnSector;
    w.f.CoreChain();
    w.f.CleanView();
  }

  /** Whether the entry of a file without the modified flag describes it after an aborted write. */
  twostate lemma AbortTold(w: Tried)
    requires w.f.Valid() && old(w.f.Valid()) && old(w.f.err == Ok && !w.f.dirty) && w.f.canWrite && w.f.isOpen
    requires w.r.res != Ok && w.f.AbortedBy(|w.data|, w.r.count)
    requires Follows(WriteCall(w.data), old(SightOf(w.f)), w.r, SightOf(w.f))
    requires FileAt(w.f.fs.g, old(w.f.fs.Vol()), w.e, old(w.f.chain), old(w.f.contents))
    requires |old(w.f.contents)| <= Bound(w.f.fs.g.csize, |old(w.f.chain)|)
    ensures FileAt(w.f.fs.g, w.f.fs.Vol(), w.e, w.f.chain, w.f.contents) <==> old(Harmless(w.f, w.data))
    ensures old(Harmless(w.f, w.data)) ==> (w.f.fs.wflag ==> old(w.f.fs.wflag))
    ensures w.f.dirty == (old(w.f.fptr) % SECTOR_SIZE != 0 && w.r.count < SECTOR_SIZE)
  {
    hide Volume.Valid, Volume.Vol, Fat, FileRep, Sectors, Holds, File.Room, FileState, SameOutsideFats, FileAt,
         FileHeld, Bound, File.Core, File.OnCluster, File.OnSector, File.AbortedBy, Follows, Splice, SameBytes, Needed;
    WriteSaw(w.data, old(SightOf(w.f)), w.r, SightOf(w.f));
    AbortLeaves(w);
    AbortedMeans(w.f.fs.g, old(w.f.fs.Vol()), w.f.fs.Vol(), w.e, old(w.f.chain), w.f.chain, old(w.f.contents),
                 old(w.f.fptr), w.data, w.r.count, w.f.dirty);
  }

  /** f_write, and whether the entry of a file without the modified flag describes it when the write is aborted. */
  method WriteTold(ghost s: Session, f: File, data: Piece) returns (r: Answer)
    requires s.Valid() && f in s.files && f.err == Ok && f.canWrite
    modifies f.fs`disk, f.fs`wflag, f.fs`winsect, f.fs`freeClst, f.fs`lastClst, f.fs`fsiDirty, f.fs.win
    modifies f.buf, f`sclust, f`clust, f`chain, f`dirty, f`err, f`sect, f`fptr, f`objsize, f`contents, f`modified
    ensures f.Valid() && s.dj.Valid() && s.dj.Content() == old(s.dj.Content()) && s.files[f] < |s.dj.Content()|
    ensures old(s.OthersHome(f)) ==> s.After(f).Valid()
    ensures Follows(WriteCall(data), old(SightOf(f)), r, SightOf(f)) && f.err == r.res
    ensures (r.res != Ok <==> old(f.WriteAborts(|data|))) && (r.res != Ok ==> r.res == IntErr)
    ensures (f.modified <==> old(f.modified) || r.res == Ok) && f.isOpen
    ensures r.res != Ok && !f.modified ==>
      && (FileAt(f.fs.g, f.fs.Vol(), s.dj.Content()[s.files[f]], f.chain, f.contents) <==> old(Harmless(f, data)))
      && (old(Harmless(f, data)) ==> (f.fs.wflag ==> old(f.fs.wflag)))
      && f.dirty == (old(f.fptr) % SECTOR_SIZE != 0 && r.count < SECTOR_SIZE)
  {
    hide Volume.Valid, Volume.Vol, Volume.FatSeq, Dir.Valid, File.Valid, File.WriteAborts, Dir.Content, Paid, FileAt,
         Bound, Fat, Harmless, Follows, File.AbortedBy;
    hide Session.Valid, Session.OthersHome, Session.Ordered, Session.Distinct, Slotted, Owned, WellFormed, HasBit,
         IsFree, Session.Closed, Session.UnhitByCall, File.Home, File.StaysHome, File.FinalBy, File.Barren,
         SightOf, Session.Spares, SameBoot, LdClust, FileSize, Holds, Apart, Catalog;
    s.Separate(f);
    s.ToldBefore(f);
    f.SizeBound();
    ghost var e := s.dj.Content()[s.files[f]];
    if !f.modified {
      ToldFileAt(f.fs.g.fsType, e, f);
    }
    r := CallBeside(s, f, WriteCall(data));
    if r.res != Ok && !f.modified {
      AbortTold(Tried(f, data, r, e));
    }
  }

  /**
    f_write and then f_sync: the entry describes the contents afterwards exactly
    when the file was changed before, or the write is not aborted, which holds on
    every table without error values, or the aborted write is harmless.  If the
    write is aborted on a file without the flag, f_sync does nothing, and bytes
    that fill up a sector from its middle stay in the dirty buffer.
    */
  method WriteThenSync(ghost s: Session, f: File, data: Piece, tm: dword)
    returns (r: Answer, res: Result, ghost t: Session, ghost mid: Sight)
    requires s.Valid() && f in s.files && s.OthersHome(f) && f.err == Ok && f.canWrite
    modifies f.fs`disk, f.fs`wflag, f.fs`winsect, f.fs`freeClst, f.fs`lastClst, f.fs`fsiDirty, f.fs.win, f, f.buf
    ensures t.Valid() && s.Continues(t) && res == Ok
    ensures Follows(WriteCall(data), old(SightOf(f)), r, mid) && SightOf(f) == mid.(flagged := false)
    ensures r.res != Ok <==> old(f.WriteAborts(|data|))
    ensures !old(Damaged(f.fs.FatSeq())) ==> r.res == Ok
    ensures FileAt(f.fs.g, f.fs.Vol(), s.dj.Content()[s.files[f]], f.chain, f.contents) <==>
      old(f.modified) || r.res == Ok || old(Harmless(f, data))
    ensures old(f.modified) || r.res == Ok || (old(Harmless(f, data)) && !old(f.fs.wflag)) ==>
      !f.fs.wflag && f.fs.disk == f.fs.Vol()
    ensures if old(f.modified) || r.res == Ok then f.fs.disk == f.fs.Vol() && !f.dirty else
        && r.res == IntErr == f.err && s.dj.Content() == old(s.dj.Content())
        && f.dirty == (old(f.fptr) % SECTOR_SIZE != 0 && r.count < SECTOR_SIZE)
  {
    hide Volume.Valid, Volume.Vol, Dir.Valid, File.Valid, File.WriteAborts, File.StaysHome, File.Home, Dir.Content,
         Follows, SameBoot, CountRight, FileAt, StillUsed, Damaged, OneSlot, SightOf, Paid, Harmless;
    hide Session.Valid, Session.Spares, Session.OthersHome, Session.Ordered, Session.Distinct, Slotted, Owned,
         WellFormed, HasBit, IsFree, Session.After, Session.Closed, Holds, Apart, Session.UnhitByCall,
         Session.UnhitBySync, File.FinalBy, File.AbortedBy, File.Quiet, Catalog;
    s.Separate(f);
    f.AbortsWhenDamaged(|data|);
    r := WriteTold(s, f, data);
    mid := SightOf(f);
    t := s.After(f);
    s.AfterContinues(s, f);
    t.Separate(f);
    s.OthersHomeAfter(f);
    res := SyncBeside(t, f, tm);
    if !f.fs.wflag {
      f.fs.CleanShows();
    }
  }

  datatype Request = Request(f: File, call: Call)

  /** What all users see, and what they share. */
  datatype Scene = Scene(files: map<File, Sight>, store: Store)

  /** One call as all users see it: the called file follows the call and pays for it, the others stay. */
  ghost predicate Observed(csize: nat, c: Request, r: Answer, a: Scene, b: Scene) {
    && c.f in a.files && c.f in b.files && b.files == a.files[c.f := b.files[c.f]]
    && Follows(c.call, a.files[c.f], r, b.files[c.f])
    && Costs(csize, c.call, a.files[c.f], r, b.files[c.f], a.store, b.store)
  }

  /** A run as all users see it. */
  ghost predicate Trace(csize: nat, calls: seq<Request>, answers: seq<Answer>, scenes: seq<Scene>)
    ensures Trace(csize, calls, answers, scenes) ==> |answers| <= |calls| && |scenes| == |answers| + 1
  {
    && |answers| <= |calls| && |scenes| == |answers| + 1
    && forall m :: 0 <= m < |answers| ==> Observed(csize, calls[m], answers[m], scenes[m], scenes[m + 1])
  }

  lemma TraceOne(csize: nat, calls: seq<Request>, answers: seq<Answer>, scenes: seq<Scene>, r: Answer, b: Scene)
    requires Trace(csize, calls, answers, scenes) && |answers| < |calls|
    requires Observed(csize, calls[|answers|], r, scenes[|answers|], b)
    ensures Trace(csize, calls, answers + [r], scenes + [b])
  {
    hide Observed;
    var answers', scenes' := answers + [r], scenes + [b];
    forall m | 0 <= m < |answers'|
      ensures Observed(csize, calls[m], answers'[m], scenes'[m], scenes'[m + 1])
    {
      if m < |answers| {
        assert answers'[m] == answers[m] && scenes'[m] == scenes[m] && scenes'[m + 1] == scenes[m + 1];
      }
    }
  }

  /** The window waits only together with a file that will write it. */
  ghost predicate Settled(a: Scene) {
    a.store.waiting ==> exists f :: f in a.files && a.files[f].flagged
  }

  /** No file has been aborted between two scenes. */
  ghost predicate NoneAborted(a: Scene, b: Scene) {
    forall f :: f in a.files ==> f in b.files && b.files[f].err == a.files[f].err
  }

  /** Over every run: the files stay the same, */
  lemma {:induction false} FilesStay(csize: nat, calls: seq<Request>, answers: seq<Answer>, scenes: seq<Scene>, m: nat)
    requires Trace(csize, calls, answers, scenes) && m <= |answers|
    ensures scenes[m].files.Keys == scenes[0].files.Keys
  {
    hide Costs, Follows;
    if m > 0 {
      FilesStay(csize, calls, answers, scenes, m - 1);
      assert Observed(csize, calls[m - 1], answers[m - 1], scenes[m - 1], scenes[m]);
    }
  }

  /** and an aborted one stays aborted. */
  lemma {:induction false} AbortStays(csize: nat, calls: seq<Request>, answers: seq<Answer>, scenes: seq<Scene>, m: nat,
                                      n: nat, f: File)
    requires Trace(csize, calls, answers, scenes) && m <= n <= |answers| && f in scenes[m].files
    ensures f in scenes[n].files && (scenes[m].files[f].err != Ok ==> scenes[n].files[f].err == scenes[m].files[f].err)
    decreases n - m
  {
    hide Costs, Splice;
    if m < n {
      AbortStays(csize, calls, answers, scenes, m, n - 1, f);
      assert Observed(csize, calls[n - 1], answers[n - 1], scenes[n - 1], scenes[n]);
    }
  }

  /** Over every run from a table without error values: there are none, no file is aborted, and soundness stays. */
  lemma {:induction false} UndamagedRun(csize: nat, calls: seq<Request>, answers: seq<Answer>, scenes: seq<Scene>,
                                        m: nat)
    requires Trace(csize, calls, answers, scenes) && m <= |answers| && !scenes[0].store.damaged
    ensures !scenes[m].store.damaged && NoneAborted(scenes[0], scenes[m])
    ensures scenes[0].store.Sound() ==> scenes[m].store.Sound()
  {
    hide Follows, MovesTo, ClustersFor;
    if m > 0 {
      UndamagedRun(csize, calls, answers, scenes, m - 1);
      assert Observed(csize, calls[m - 1], answers[m - 1], scenes[m - 1], scenes[m]);
    }
  }

  /** Over every run: a file keeps its modified flag until f_sync is called on it. */
  lemma {:induction false} FlagStays(csize: nat, calls: seq<Request>, answers: seq<Answer>, scenes: seq<Scene>, m: nat,
                                     f: File)
    requires Trace(csize, calls, answers, scenes) && m <= |answers| && f in scenes[0].files
    requires scenes[0].files[f].flagged
    requires forall k :: 0 <= k < m && calls[k].f == f ==> !calls[k].call.SyncCall?
    ensures f in scenes[m].files && scenes[m].files[f].flagged
  {
    hide Costs, Splice;
    if m > 0 {
      FlagStays(csize, calls, answers, scenes, m - 1, f);
      assert Observed(csize, calls[m - 1], answers[m - 1], scenes[m - 1], scenes[m]);
    }
  }

  lemma SettledStep(csize: nat, calls: seq<Request>, answers: seq<Answer>, scenes: seq<Scene>, m: nat)
    requires Trace(csize, calls, answers, scenes) && m < |answers| && Settled(scenes[m])
    requires NoneAborted(scenes[0], scenes[|answers|])
    ensures Settled(scenes[m + 1])
  {
    hide MovesTo, ClustersFor, Splice;
    var c, a, b := calls[m], scenes[m], scenes[m + 1];
    assert Observed(csize, c, answers[m], a, b);
    FilesStay(csize, calls, answers, scenes, m);
    AbortStays(csize, calls, answers, scenes, 0, m, c.f);
    AbortStays(csize, calls, answers, scenes, m + 1, |answers|, c.f);
    if b.store.waiting && a.store.waiting {
      var h :| h in a.files && a.files[h].flagged;
      assert b.files[h].flagged || h == c.f;
    }
    if b.files[c.f].flagged {
      assert c.f in b.files;
    }
  }

  /** Over every run without an abort: the window never waits without a file that will write it. */
  lemma {:induction false} SettledRun(csize: nat, calls: seq<Request>, answers: seq<Answer>, scenes: seq<Scene>, m: nat)
    requires Trace(csize, calls, answers, scenes) && m <= |answers| && Settled(scenes[0])
    requires NoneAborted(scenes[0], scenes[|answers|])
    ensures Settled(scenes[m])
  {
    hide MovesTo, ClustersFor, Splice;
    if m > 0 {
      SettledRun(csize, calls, answers, scenes, m - 1);
      SettledStep(csize, calls, answers, scenes, m - 1);
    }
  }

  /** Only entries of open files may be rewritten, under the same names. */
  ghost predicate OpenSlotsOnly(slots: seq<Entry32>, slots': seq<Entry32>, open: set<nat>) {
    && |slots'| == |slots|
    && forall j :: 0 <= j < |slots| ==> slots'[j] == slots[j] || (j in open && StillUsed(slots[j], slots'[j]))
  }

  lemma OpenSlotsStep(slots: seq<Entry32>, slots1: seq<Entry32>, slots2: seq<Entry32>, open: set<nat>, i: nat)
    requires OpenSlotsOnly(slots, slots1, open) && Rewritten(slots1, slots2, i) && i in open
    ensures OpenSlotsOnly(slots, slots2, open)
  {
    hide HasBit, IsFree;
  }

  /** Why a run may be stopped: a cut at a sector boundary might leave a buffer on a sector another file could get. */
  predicate MayLoseHome(c: Request)
    reads c.f
  {
    c.call.TruncateCall? && c.f.Cuts() && c.f.fptr % SECTOR_SIZE == 0 && c.f.sect != 0
  }

  /** A call, seen by all users. */
  method StepInRun(ghost s: Session, c: Request, alone: bool) returns (r: Answer, ghost t: Session)
    requires s.Valid() && c.f in s.files && s.Calm(alone) && (alone || !MayLoseHome(c))
    modifies c.f.fs`disk, c.f.fs`wflag, c.f.fs`winsect, c.f.fs`freeClst, c.f.fs`lastClst, c.f.fs`fsiDirty, c.f.fs.win
    modifies c.f, c.f.buf
    ensures t.Valid() && t.Calm(alone) && t == s.After(c.f) && Owner(s.files[c.f]) in s.owners
    ensures s.dj.Valid() && Observed(s.dj.fs.g.csize, c, r, old(s.Seen()), s.Seen())
    ensures Rewritten(old(s.dj.Content()), s.dj.Content(), s.files[c.f])
    ensures s.Spares(s.dj.fs.g, old(s.dj.fs.Vol()), s.dj.fs.Vol())
    ensures SameBoot(s.dj.fs.g, old(s.dj.fs.Vol()), s.dj.fs.Vol())
  {
    hide Volume.Valid, Volume.Vol, Dir.Valid, File.Valid, Session.Spares, SameBoot, File.Home, File.StaysHome, Slotted,
         Session.Ordered, Session.Distinct, Session.Valid, Session.OthersHome, Session.AllHome, Dir.Content, FileAt,
         Rewritten, Owned, WellFormed, Follows, Session.Sights, SightOf, Costs, StoreOf, File.WrittenBy;
    s.CalmOthers(alone, c.f);
    if c.call.TruncateCall? && !alone {
      c.f.InsideStays();
    }
    r, t := StepBeside(s, c.f, c.call);
    s.SightsAfter(c.f);
    if !alone {
      s.HomeAfter(c.f);
    }
  }

  /**
    A run of any calls on any of the open files.  Every user sees a sequence of
    bytes and a cursor of his own; all share the free clusters, none of which is
    lost or made; nothing else on the volume is disturbed.  A file that is open
    alone may be truncated anywhere; beside others, the run stops in front of a
    truncation that may lose the buffer.
    */
  method RunCalls(calls: seq<Request>, ghost s: Session, alone: bool)
    returns (answers: seq<Answer>, ghost t: Session, ghost scenes: seq<Scene>)
    requires s.Valid() && s.Calm(alone) && forall m :: 0 <= m < |calls| ==> calls[m].f in s.files
    modifies s.dj.fs`disk, s.dj.fs`wflag, s.dj.fs`winsect, s.dj.fs`freeClst, s.dj.fs`lastClst, s.dj.fs`fsiDirty
    modifies s.dj.fs.win, s.files.Keys, set f | f in s.files :: f.buf
    ensures t.Valid() && t.Calm(alone) && s.Continues(t)
    ensures Trace(s.dj.fs.g.csize, calls, answers, scenes)
    ensures scenes[0] == old(s.Seen()) && scenes[|answers|] == t.Seen()
    ensures |answers| < |calls| ==> !alone && MayLoseHome(calls[|answers|])
    ensures OpenSlotsOnly(old(s.dj.Content()), s.dj.Content(), s.files.Values)
    ensures s.Spares(s.dj.fs.g, old(s.dj.fs.Vol()), s.dj.fs.Vol())
    ensures SameBoot(s.dj.fs.g, old(s.dj.fs.Vol()), s.dj.fs.Vol())
  {
    hide Volume.Valid, Volume.Vol, Dir.Valid, File.Valid, Session.Spares, SameBoot, File.Home, Slotted, Session.Closed,
         Session.After, Session.Ordered, Session.Distinct, Session.Valid, Session.Calm, Dir.Content, Rewritten,
         Observed, Trace, OpenSlotsOnly, Session.Sights, IsFree, HasBit, Session.Seen;
    s.InOrder();
    ghost var g, vol, slots := s.dj.fs.g, s.dj.fs.Vol(), s.dj.Content();
    answers, t, scenes := [], s, [s.Seen()];
    RunStart(s, calls);
    while |answers| < |calls| && (alone || !MayLoseHome(calls[|answers|]))
      invariant t.Valid() && t.Calm(alone) && s.Continues(t) && s.dj.Valid()
      invariant Trace(g.csize, calls, answers, scenes)
      invariant scenes[0] == old(s.Seen()) && scenes[|answers|] == s.Seen()
      invariant OpenSlotsOnly(slots, s.dj.Content(), s.files.Values)
      invariant s.Spares(g, vol, s.dj.fs.Vol()) && SameBoot(g, vol, s.dj.fs.Vol())
      decreases |calls| - |answers|
    {
      ghost var u, vol1, slots1 := t, s.dj.fs.Vol(), s.dj.Content();
      var r;
      s.SameSights(u);
      r, t := StepInRun(t, calls[|answers|], alone);
      s.SameSights(u);
      u.AfterContinues(s, calls[|answers|].f);
      OpenSlotsStep(slots, slots1, s.dj.Content(), s.files.Values, s.files[calls[|answers|].f]);
      s.SparesTrans(u, g, vol, vol1, s.dj.fs.Vol());
      SameBootTrans(g, vol, vol1, s.dj.fs.Vol());
      TraceOne(g.csize, calls, answers, scenes, r, s.Seen());
      answers, scenes := answers + [r], scenes + [s.Seen()];
    }
    s.SameSights(t);
  }

  lemma RunStart(s: Session, calls: seq<Request>)
    requires s.Valid()
    ensures s.dj.Valid() && Trace(s.dj.fs.g.csize, calls, [], [s.Seen()]) && s.Continues(s)
    ensures OpenSlotsOnly(s.dj.Content(), s.dj.Content(), s.files.Values)
    ensures s.Spares(s.dj.fs.g, s.dj.fs.Vol(), s.dj.fs.Vol()) && SameBoot(s.dj.fs.g, s.dj.fs.Vol(), s.dj.fs.Vol())
  {
    hide Volume.Valid, Volume.Vol, Dir.Valid, Slotted, WellFormed, Catalog, Sectors, Holds, Dir.Content, Fat,
         Session.Seen;
    s.dj.TblFacts();
    forall k | s.Closed(k)
      ensures Spared(s.dj.fs.g, s.dj.fs.Vol(), s.dj.fs.Vol(), s.owners[k])
    {
      ChainInArea(s.dj.fs.g, s.dj.fs.Vol(), s.owners[k]);
    }
    BootThere(s.dj.fs.g);
  }

  lemma BootThere(g: Geo)
    requires g.Valid()
    ensures g.volbase < g.devSize
  {
    RunsApart(g.csize, 0, g.nFatent - 2);
  }
}
