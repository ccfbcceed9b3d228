/**
  Where the slots of a directory lie: in the static root area or in the sectors
  of a cluster chain.
  */
module DirTable {
  import opened Bytes
  import opened Geometry
  import opened FatTable
  import opened Chains
  import opened FileData
  import opened Entries
  import opened Directory

  /** The root directory of FAT12/16 lies outside the data area. */
  predicate IsStatic(g: Geo, sclust: nat) {
    sclust == 0 && !g.fsType.FAT32?
  }

  /** Cluster number 0 stands for the root directory. */
  function StartCluster(g: Geo, sclust: nat): nat {
    if sclust == 0 && g.fsType.FAT32? then g.dirbase else sclust
  }

  /** The chain of a directory; the static root has none. */
  ghost predicate DirChain(g: Geo, fat: seq<nat>, sclust: nat, ch: seq<nat>) {
    if IsStatic(g, sclust) then ch == [] else IsChain(fat, ch) && ch[0] == StartCluster(g, sclust) && InArea(g, ch)
  }

  /** The sectors of the directory, in order. */
  ghost function Table(g: Geo, sclust: nat, ch: seq<nat>): seq<nat>
    requires InArea(g, ch)
  {
    if IsStatic(g, sclust) then CountUp(g.dirbase, g.RootSectors()) else Sectors(g, ch)
  }

  /** Slots that can be reached: the table, cut off at MAX_DIR. */
  ghost function SlotCount(tbl: seq<nat>): nat {
    if |tbl| * SLOTS_PER_SECTOR < MAX_SLOTS then |tbl| * SLOTS_PER_SECTOR else MAX_SLOTS
  }

  function SlotIn(sec: Sector, k: nat): Entry32
    requires k < SLOTS_PER_SECTOR
  {
    sec[k * ENTRY_SIZE..k * ENTRY_SIZE + ENTRY_SIZE]
  }

  ghost predicate OnVolume(vol: seq<Sector>, tbl: seq<nat>) {
    forall k :: 0 <= k < |tbl| ==> tbl[k] < |vol|
  }

  ghost function SlotAt(vol: seq<Sector>, tbl: seq<nat>, i: nat): Entry32
    requires OnVolume(vol, tbl) && i < |tbl| * SLOTS_PER_SECTOR
  {
    SlotIn(vol[tbl[i / SLOTS_PER_SECTOR]], i % SLOTS_PER_SECTOR)
  }

  ghost function Slots(vol: seq<Sector>, tbl: seq<nat>): (s: seq<Entry32>)
    requires OnVolume(vol, tbl)
    ensures |s| == SlotCount(tbl)
  {
    seq(SlotCount(tbl), i requires 0 <= i < SlotCount(tbl) => SlotAt(vol, tbl, i))
  }

  /** Slots are runs of 32 bytes, 16 to a sector, at most 65536 in all. */
  lemma SlotsByBytes(vol: seq<Sector>, tbl: seq<nat>, i: nat)
    requires OnVolume(vol, tbl) && i < |Slots(vol, tbl)|
    ensures |Slots(vol, tbl)| == if 16 * |tbl| < 65536 then 16 * |tbl| else 65536
    ensures i / 16 < |tbl| && Slots(vol, tbl)[i] == vol[tbl[i / 16]][i % 16 * 32..i % 16 * 32 + 32]
  {
  }

  /** The sectors of a directory: the static root has those in front of the data area, others those of their chain. */
  lemma TableByNumbers(g: Geo, sclust: nat, ch: seq<nat>)
    requires g.Valid() && InArea(g, ch)
    ensures if sclust == 0 && !g.fsType.FAT32? then
        |Table(g, sclust, ch)| == g.nRootdir / 16 && g.dirbase + g.nRootdir / 16 == g.database
        && forall k :: 0 <= k < g.nRootdir / 16 ==> Table(g, sclust, ch)[k] == g.dirbase + k
      else Table(g, sclust, ch) == Sectors(g, ch)
  {
  }

  /** Table sectors lie on the device, apart from the allocation table and FSInfo, each once. */
  lemma TableSectors(g: Geo, fat: seq<nat>, sclust: nat, ch: seq<nat>)
    requires g.Valid() && |fat| == g.nFatent && DirChain(g, fat, sclust, ch)
    ensures InArea(g, ch)
    ensures forall s :: s in Table(g, sclust, ch) ==> s < g.devSize && g.fatbase + g.FatArea() <= s
    ensures AllDistinct(Table(g, sclust, ch))
    ensures |Table(g, sclust, ch)| > 0
    ensures forall k :: 0 <= k < |Table(g, sclust, ch)| ==> Table(g, sclust, ch)[k] < g.devSize
  {
    hide Sectors;
    if IsStatic(g, sclust) {
      StaticTable(g);
    } else {
      ChainTable(g, fat, ch);
    }
    assert forall k :: 0 <= k < |Table(g, sclust, ch)| ==> Table(g, sclust, ch)[k] in Table(g, sclust, ch);
  }

  lemma StaticTable(g: Geo)
    requires g.Valid() && !g.fsType.FAT32?
    ensures var t := CountUp(g.dirbase, g.RootSectors());
      |t| > 0 && AllDistinct(t) && forall s :: s in t ==> g.fatbase + g.FatArea() <= s < g.database <= g.devSize
  {
    RunsApart(g.csize, 0, g.nFatent - 2);
  }

  lemma ChainTable(g: Geo, fat: seq<nat>, ch: seq<nat>)
    requires g.Valid() && |fat| == g.nFatent && IsChain(fat, ch) && InArea(g, ch)
    ensures var t := Sectors(g, ch);
      |t| > 0 && AllDistinct(t) && forall s :: s in t ==> g.database <= s < g.devSize
  {
    hide Sectors;
    forall k, l | 0 <= k < |Sectors(g, ch)| && 0 <= l < |Sectors(g, ch)| && Sectors(g, ch)[k] == Sectors(g, ch)[l]
      ensures k == l
    {
      SectorsDistinct(g, ch, k, l);
    }
    forall s | s in Sectors(g, ch)
      ensures g.database <= s < g.devSize
    {
      SectorsInData(g, ch, s);
    }
    RunsApart(g.csize, 0, |ch|);
  }

  /** Slots depend only on the sectors of the table. */
  lemma SlotsFrame(vol: seq<Sector>, vol': seq<Sector>, tbl: seq<nat>)
    requires OnVolume(vol, tbl) && |vol'| == |vol|
    requires forall s :: s in tbl && s < |vol| ==> vol'[s] == vol[s]
    ensures Slots(vol', tbl) == Slots(vol, tbl)
  {
    forall i | 0 <= i < SlotCount(tbl)
      ensures SlotAt(vol', tbl, i) == SlotAt(vol, tbl, i)
    {
      assert tbl[i / SLOTS_PER_SECTOR] in tbl;
    }
  }

  /** Changing bytes of one slot in its sector changes that slot only. */
  lemma SlotPatched(sec: Sector, k: nat, o: nat, bytes: seq<byte>, l: nat)
    requires k < SLOTS_PER_SECTOR && l < SLOTS_PER_SECTOR && o + |bytes| <= ENTRY_SIZE
    ensures SlotIn(Patch(sec, k * ENTRY_SIZE + o, bytes), l) ==
      if l == k then Patch(SlotIn(sec, k), o, bytes) else SlotIn(sec, l)
  {
    var sec', at := Patch(sec, k * ENTRY_SIZE + o, bytes), k * ENTRY_SIZE + o;
    forall j | 0 <= j < ENTRY_SIZE
      ensures SlotIn(sec', l)[j] == if l == k && o <= j < o + |bytes| then bytes[j - o] else SlotIn(sec, l)[j]
    {
      PatchAt(sec, at, bytes, l * ENTRY_SIZE + j);
    }
    if l == k {
      forall j | 0 <= j < ENTRY_SIZE
        ensures Patch(SlotIn(sec, k), o, bytes)[j] == if o <= j < o + |bytes| then bytes[j - o] else SlotIn(sec, l)[j]
      {
        PatchAt(SlotIn(sec, k), o, bytes, j);
      }
    }
  }

  lemma SlotsPatched(vol: seq<Sector>, tbl: seq<nat>, i: nat, o: nat, bytes: seq<byte>)
    requires OnVolume(vol, tbl) && AllDistinct(tbl) && i < SlotCount(tbl) && o + |bytes| <= ENTRY_SIZE
    ensures var s := tbl[i / SLOTS_PER_SECTOR];
      Slots(vol[s := Patch(vol[s], i % SLOTS_PER_SECTOR * ENTRY_SIZE + o, bytes)], tbl) ==
      Slots(vol, tbl)[i := Patch(SlotAt(vol, tbl, i), o, bytes)]
  {
    hide Patch, SlotIn;
    var s := tbl[i / SLOTS_PER_SECTOR];
    var vol' := vol[s := Patch(vol[s], i % SLOTS_PER_SECTOR * ENTRY_SIZE + o, bytes)];
    forall j | 0 <= j < SlotCount(tbl)
      ensures SlotAt(vol', tbl, j) == if j == i then Patch(SlotAt(vol, tbl, i), o, bytes) else SlotAt(vol, tbl, j)
    {
      if j / SLOTS_PER_SECTOR == i / SLOTS_PER_SECTOR {
        SlotPatched(vol[s], i % SLOTS_PER_SECTOR, o, bytes, j % SLOTS_PER_SECTOR);
      } else {
        assert tbl[j / SLOTS_PER_SECTOR] != s;
      }
    }
  }

  lemma SlotOfContent(vol: seq<Sector>, tbl: seq<nat>, i: nat)
    requires OnVolume(vol, tbl) && i < SlotCount(tbl)
    ensures Slots(vol, tbl)[i] == SlotAt(vol, tbl, i)
  {
  }

  /** A table grown by cleared sectors has the old slots and then cleared ones. */
  lemma SlotsGrown(vol: seq<Sector>, tbl: seq<nat>, vol': seq<Sector>, tbl': seq<nat>)
    requires OnVolume(vol, tbl) && OnVolume(vol', tbl') && tbl <= tbl'
    requires forall k :: 0 <= k < |tbl| ==> vol'[tbl[k]] == vol[tbl[k]]
    requires forall k :: |tbl| <= k < |tbl'| ==> vol'[tbl'[k]] == ZERO_SECTOR
    ensures Grown(Slots(vol, tbl), Slots(vol', tbl'))
  {
    var s, s' := Slots(vol, tbl), Slots(vol', tbl');
    forall i | 0 <= i < |s|
      ensures s'[i] == s[i]
    {
      assert tbl'[i / SLOTS_PER_SECTOR] == tbl[i / SLOTS_PER_SECTOR];
    }
    forall i | |s| <= i < |s'|
      ensures s'[i][0] == 0
    {
      assert i / SLOTS_PER_SECTOR >= |tbl|;
    }
  }
}
