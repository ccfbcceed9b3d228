/**
  The bytes of a file as the sectors of its clusters hold them.
  */
module FileData {
  import opened Bytes
  import opened Geometry
  import opened Chains
  import opened FatTable

  // ---- the sectors of a chain

  ghost function CountUp(first: nat, n: nat): (s: seq<nat>)
    ensures |s| == n
    ensures forall j :: 0 <= j < n ==> s[j] == first + j
  {
    if n == 0 then [] else CountUp(first, n - 1) + [first + n - 1]
  }

  /** The sectors of one cluster. */
  ghost function Run(g: Geo, c: nat): (s: seq<nat>)
    requires 2 <= c
    ensures |s| == g.csize
  {
    CountUp(g.FirstSector(c), g.csize)
  }

  ghost predicate InArea(g: Geo, ch: seq<nat>) {
    forall i :: 0 <= i < |ch| ==> 2 <= ch[i] < g.nFatent
  }

  /** The sectors of a chain, in file order. */
  ghost function Sectors(g: Geo, ch: seq<nat>): (s: seq<nat>)
    requires InArea(g, ch)
    ensures |s| == RunLength(g.csize, |ch|)
  {
    if ch == [] then [] else Sectors(g, ch[..|ch| - 1]) + Run(g, ch[|ch| - 1])
  }

  lemma {:induction false} SectorsAt(g: Geo, ch: seq<nat>, a: nat, b: nat)
    requires InArea(g, ch) && a < |ch| && b < g.csize
    ensures RunLength(g.csize, a) + b < |Sectors(g, ch)|
    ensures Sectors(g, ch)[RunLength(g.csize, a) + b] == g.FirstSector(ch[a]) + b
    decreases |ch|
  {
    if a < |ch| - 1 {
      SectorsAt(g, ch[..|ch| - 1], a, b);
    } else {
      assert Run(g, ch[a])[b] == g.FirstSector(ch[a]) + b;
    }
  }

  lemma {:induction false} SectorsPrefix(g: Geo, ch: seq<nat>, ch': seq<nat>)
    requires InArea(g, ch') && ch <= ch'
    ensures InArea(g, ch) && Sectors(g, ch) <= Sectors(g, ch')
    decreases |ch'|
  {
    if ch != ch' {
      assert ch <= ch'[..|ch'| - 1];
      SectorsPrefix(g, ch, ch'[..|ch'| - 1]);
    } else {
      assert ch == ch';
    }
  }

  /** A buffered sector, if there is one, is a sector of the chain. */
  ghost predicate OfChain(g: Geo, ch: seq<nat>, sect: nat)
    requires InArea(g, ch)
  {
    sect == 0 || sect in Sectors(g, ch)
  }

  lemma SectorStays(g: Geo, ch: seq<nat>, ch': seq<nat>, s: nat)
    requires InArea(g, ch') && ch <= ch'
    ensures InArea(g, ch) && (s in Sectors(g, ch) ==> s in Sectors(g, ch'))
  {
    hide Sectors;
    SectorsPrefix(g, ch, ch');
  }

  lemma OfLongerChain(g: Geo, ch: seq<nat>, ch': seq<nat>, sect: nat)
    requires InArea(g, ch') && ch <= ch'
    ensures InArea(g, ch) && (OfChain(g, ch, sect) ==> OfChain(g, ch', sect))
  {
    hide Sectors;
    SectorsPrefix(g, ch, ch');
  }

  /** Position k of a file is sector CluOfs of its cluster number CluIdx. */
  ghost function CluIdx(csize: nat, k: nat): nat
    requires csize > 0
  {
    k / csize
  }

  function CluOfs(csize: nat, k: nat): nat
    requires csize > 0
  {
    k % csize
  }

  lemma OffsetIs(csize: nat, k: nat)
    requires csize > 0
    ensures CluOfs(csize, k) == k % csize
  {
  }

  lemma Locate(csize: nat, k: nat)
    requires csize > 0
    ensures CluOfs(csize, k) < csize
    ensures k == RunLength(csize, CluIdx(csize, k)) + CluOfs(csize, k)
  {
    RunLengthIsProduct(csize, k / csize);
  }

  lemma LocateUnique(csize: nat, k: nat, a: nat, b: nat)
    requires csize > 0 && k == RunLength(csize, a) + b && b < csize
    ensures CluIdx(csize, k) == a && CluOfs(csize, k) == b
  {
    hide CluIdx, CluOfs;
    Locate(csize, k);
    var q := CluIdx(csize, k);
    if q < a {
      RunsApart(csize, q, a);
    } else if a < q {
      RunsApart(csize, a, q);
    }
  }

  lemma LocateBelow(csize: nat, k: nat, n: nat)
    requires csize > 0
    ensures k < RunLength(csize, n) <==> CluIdx(csize, k) < n
  {
    hide CluIdx, CluOfs;
    Locate(csize, k);
    var q := CluIdx(csize, k);
    if q < n {
      RunsApart(csize, q, n);
    } else if n < q {
      RunsApart(csize, n, q);
    }
  }

  lemma SectorAt(g: Geo, ch: seq<nat>, k: nat)
    requires g.csize > 0 && InArea(g, ch) && k < |Sectors(g, ch)|
    ensures CluIdx(g.csize, k) < |ch|
    ensures Sectors(g, ch)[k] == g.FirstSector(ch[CluIdx(g.csize, k)]) + CluOfs(g.csize, k)
  {
    hide CluIdx, CluOfs;
    Locate(g.csize, k);
    LocateBelow(g.csize, k, |ch|);
    SectorsAt(g, ch, CluIdx(g.csize, k), CluOfs(g.csize, k));
  }

  /** File sectors lie in the data area. */
  lemma SectorsInData(g: Geo, ch: seq<nat>, s: nat)
    requires g.Valid() && InArea(g, ch) && s in Sectors(g, ch)
    ensures g.database <= s < g.devSize && g.OutsideFats(s)
  {
    hide CluIdx, CluOfs;
    var k :| 0 <= k < |Sectors(g, ch)| && Sectors(g, ch)[k] == s;
    SectorAt(g, ch, k);
    Locate(g.csize, k);
    var c := ch[CluIdx(g.csize, k)];
    ClusterRuns(g, c, c);
  }

  /** No sector belongs to two clusters. */
  lemma SameSector(g: Geo, c: nat, i: nat, d: nat, j: nat)
    requires g.Valid() && g.InRange(c) && g.InRange(d) && i < g.csize && j < g.csize
    requires g.FirstSector(c) + i == g.FirstSector(d) + j
    ensures c == d && i == j
  {
    if c < d {
      ClusterRuns(g, c, d);
    } else if d < c {
      ClusterRuns(g, d, c);
    }
  }

  lemma SectorsDistinct(g: Geo, ch: seq<nat>, k: nat, l: nat)
    requires g.Valid() && InArea(g, ch) && Distinct(ch)
    requires k < |Sectors(g, ch)| && l < |Sectors(g, ch)| && Sectors(g, ch)[k] == Sectors(g, ch)[l]
    ensures k == l
  {
    hide CluIdx, CluOfs, Sectors;
    SectorAt(g, ch, k);
    SectorAt(g, ch, l);
    Locate(g.csize, k);
    Locate(g.csize, l);
    var a, b := CluIdx(g.csize, k), CluIdx(g.csize, l);
    SameSector(g, ch[a], CluOfs(g.csize, k), ch[b], CluOfs(g.csize, l));
  }

  /** Chains without a common cluster have no common sector. */
  lemma SectorsApart(g: Geo, ch: seq<nat>, other: seq<nat>, s: nat)
    requires g.Valid() && InArea(g, ch) && InArea(g, other) && Apart(ch, other)
    requires s in Sectors(g, ch)
    ensures s !in Sectors(g, other)
  {
    hide CluIdx, CluOfs, Sectors;
    if s in Sectors(g, other) {
      var k :| 0 <= k < |Sectors(g, ch)| && Sectors(g, ch)[k] == s;
      var l :| 0 <= l < |Sectors(g, other)| && Sectors(g, other)[l] == s;
      SectorAt(g, ch, k);
      SectorAt(g, other, l);
      Locate(g.csize, k);
      Locate(g.csize, l);
      var a, b := CluIdx(g.csize, k), CluIdx(g.csize, l);
      assert ch[a] in ch && other[b] in other;
      SameSector(g, ch[a], CluOfs(g.csize, k), other[b], CluOfs(g.csize, l));
    }
  }

  // ---- bytes

  /** The sectors secs of view hold the bytes of the file. */
  ghost predicate FileRep(view: seq<Sector>, secs: seq<nat>, contents: seq<byte>) {
    && |contents| <= |secs| * SECTOR_SIZE
    && (forall k :: 0 <= k < |secs| ==> secs[k] < |view|)
    && (forall i :: 0 <= i < |contents| ==> contents[i] == ByteAt(view, secs, i))
  }

  ghost function ByteAt(view: seq<Sector>, secs: seq<nat>, i: nat): byte
    requires i < |secs| * SECTOR_SIZE && forall k :: 0 <= k < |secs| ==> secs[k] < |view|
  {
    view[secs[i / SECTOR_SIZE]][i % SECTOR_SIZE]
  }

  lemma RepFrame(view: seq<Sector>, secs: seq<nat>, contents: seq<byte>, view': seq<Sector>)
    requires FileRep(view, secs, contents) && |view'| == |view|
    requires forall s :: s in secs && s < |view| ==> view'[s] == view[s]
    ensures FileRep(view', secs, contents)
  {
    forall i | 0 <= i < |contents|
      ensures contents[i] == ByteAt(view', secs, i)
    {
      assert secs[i / SECTOR_SIZE] in secs;
    }
  }

  lemma RepLonger(view: seq<Sector>, secs: seq<nat>, contents: seq<byte>, secs': seq<nat>)
    requires FileRep(view, secs, contents) && secs <= secs'
    requires forall k :: 0 <= k < |secs'| ==> secs'[k] < |view|
    ensures FileRep(view, secs', contents)
  {
    forall i | 0 <= i < |contents|
      ensures contents[i] == ByteAt(view, secs', i)
    {
      assert contents[i] == ByteAt(view, secs, i);
    }
  }

  /** contents with the bytes from position at replaced, and possibly grown, by piece. */
  function Splice(contents: seq<byte>, at: nat, piece: seq<byte>): (r: seq<byte>)
    requires at <= |contents|
    ensures |r| == if at + |piece| > |contents| then at + |piece| else |contents|
  {
    contents[..at] + piece + (if at + |piece| < |contents| then contents[at + |piece|..] else [])
  }

  lemma SpliceTwice(contents: seq<byte>, at: nat, p: seq<byte>, q: seq<byte>)
    requires at <= |contents|
    ensures Splice(Splice(contents, at, p), at + |p|, q) == Splice(contents, at, p + q)
  {
  }

  lemma SpliceNothing(contents: seq<byte>, at: nat)
    requires at <= |contents|
    ensures Splice(contents, at, []) == contents
  {
  }

  lemma SpliceAppend(contents: seq<byte>, piece: seq<byte>)
    ensures Splice(contents, |contents|, piece) == contents + piece
  {
  }

  lemma SpliceAt(contents: seq<byte>, at: nat, piece: seq<byte>, i: nat)
    requires at <= |contents| && i < |Splice(contents, at, piece)|
    ensures Splice(contents, at, piece)[i] ==
      if at <= i < at + |piece| then piece[i - at] else if i < |contents| then contents[i] else piece[0]
  {
  }

  /** Device sectors s, s + 1, ... overwritten by data (disk_write of several sectors). */
  function WriteRun(vol: seq<Sector>, s: nat, data: seq<byte>): (r: seq<Sector>)
    requires |data| % SECTOR_SIZE == 0 && s + |data| / SECTOR_SIZE <= |vol|
    ensures |r| == |vol|
  {
    seq(|vol|, t requires 0 <= t < |vol| =>
      if s <= t < s + |data| / SECTOR_SIZE then data[(t - s) * SECTOR_SIZE..(t - s) * SECTOR_SIZE + SECTOR_SIZE]
        else vol[t])
  }

  /** The bytes of sectors s, s + 1, ... (disk_read of several sectors). */
  function ReadRun(vol: seq<Sector>, s: nat, cc: nat): (r: seq<byte>)
    requires s + cc <= |vol|
    ensures |r| == cc * SECTOR_SIZE
  {
    seq(cc * SECTOR_SIZE, i requires 0 <= i < cc * SECTOR_SIZE => vol[s + i / SECTOR_SIZE][i % SECTOR_SIZE])
  }

  lemma WriteOne(vol: seq<Sector>, s: nat, sec: Sector)
    requires s < |vol|
    ensures WriteRun(vol, s, sec) == vol[s := sec]
  {
    assert sec[0..SECTOR_SIZE] == sec;
  }

  lemma ReadOne(vol: seq<Sector>, s: nat)
    requires s < |vol|
    ensures ReadRun(vol, s, 1) == vol[s]
  {
  }

  ghost predicate Consecutive(secs: seq<nat>, k: nat, s: nat, cc: nat) {
    k + cc <= |secs| && forall q :: k <= q < k + cc ==> secs[q] == s + (q - k)
  }

  ghost predicate AllDistinct(secs: seq<nat>) {
    forall k, l :: 0 <= k < |secs| && 0 <= l < |secs| && secs[k] == secs[l] ==> k == l
  }

  lemma PlaceInRun(secs: seq<nat>, k: nat, s: nat, cc: nat, q: nat)
    requires AllDistinct(secs) && Consecutive(secs, k, s, cc) && q < |secs| && s <= secs[q] < s + cc
    ensures k <= q < k + cc
  {
    var p := k + (secs[q] - s);
    assert secs[p] == s + (p - k);
  }

  lemma RunOfFile(secs: seq<nat>, k: nat, s: nat, cc: nat, t: nat)
    requires Consecutive(secs, k, s, cc) && s <= t < s + cc
    ensures t in secs
  {
    assert secs[k + (t - s)] == s + (k + (t - s) - k);
  }

  lemma RunOnly(vol: seq<Sector>, secs: seq<nat>, k: nat, s: nat, data: seq<byte>)
    requires |data| % SECTOR_SIZE == 0 && s + |data| / SECTOR_SIZE <= |vol|
    requires Consecutive(secs, k, s, |data| / SECTOR_SIZE)
    ensures forall t: nat :: t < |vol| && t !in secs ==> WriteRun(vol, s, data)[t] == vol[t]
  {
    forall t: nat | t < |vol| && t !in secs
      ensures WriteRun(vol, s, data)[t] == vol[t]
    {
      if s <= t < s + |data| / SECTOR_SIZE {
        RunOfFile(secs, k, s, |data| / SECTOR_SIZE, t);
      }
    }
  }

  /** Whole sectors written at a sector boundary. */
  lemma DirectWriteByte(view: seq<Sector>, secs: seq<nat>, contents: seq<byte>, k: nat, s: nat, data: seq<byte>, i: nat)
    requires FileRep(view, secs, contents) && AllDistinct(secs)
    requires |data| % SECTOR_SIZE == 0 && s + |data| / SECTOR_SIZE <= |view|
    requires Consecutive(secs, k, s, |data| / SECTOR_SIZE) && k * SECTOR_SIZE <= |contents|
    requires i < |Splice(contents, k * SECTOR_SIZE, data)| && i < |secs| * SECTOR_SIZE
    ensures Splice(contents, k * SECTOR_SIZE, data)[i] == ByteAt(WriteRun(view, s, data), secs, i)
  {
    hide Splice;
    SpliceAt(contents, k * SECTOR_SIZE, data, i);
    var cc, q, r := |data| / SECTOR_SIZE, i / SECTOR_SIZE, i % SECTOR_SIZE;
    assert i == q * SECTOR_SIZE + r && |data| == cc * SECTOR_SIZE;
    if k <= q < k + cc {
      assert secs[q] == s + (q - k);
      assert k * SECTOR_SIZE <= i < k * SECTOR_SIZE + |data|;
    } else {
      assert !(k * SECTOR_SIZE <= i < k * SECTOR_SIZE + |data|);
      if s <= secs[q] < s + cc {
        PlaceInRun(secs, k, s, cc, q);
      }
      assert contents[i] == ByteAt(view, secs, i);
    }
  }

  lemma DirectWriteRep(view: seq<Sector>, secs: seq<nat>, contents: seq<byte>, k: nat, s: nat, data: seq<byte>)
    requires FileRep(view, secs, contents) && AllDistinct(secs)
    requires |data| % SECTOR_SIZE == 0 && s + |data| / SECTOR_SIZE <= |view|
    requires Consecutive(secs, k, s, |data| / SECTOR_SIZE) && k * SECTOR_SIZE <= |contents|
    ensures FileRep(WriteRun(view, s, data), secs, Splice(contents, k * SECTOR_SIZE, data))
  {
    hide Splice, ByteAt, WriteRun;
    var c' := Splice(contents, k * SECTOR_SIZE, data);
    assert |c'| <= |secs| * SECTOR_SIZE;
    forall i | 0 <= i < |c'|
      ensures c'[i] == ByteAt(WriteRun(view, s, data), secs, i)
    {
      DirectWriteByte(view, secs, contents, k, s, data, i);
    }
  }

  /** Part of one sector written; base agrees with the file where the file has bytes. */
  lemma PartialWriteByte(view: seq<Sector>, secs: seq<nat>, contents: seq<byte>, k: nat, o: nat, base: Sector,
                         piece: seq<byte>, i: nat)
    requires FileRep(view, secs, contents) && AllDistinct(secs)
    requires k < |secs| && o + |piece| <= SECTOR_SIZE && k * SECTOR_SIZE + o <= |contents|
    requires forall p :: 0 <= p < SECTOR_SIZE && k * SECTOR_SIZE + p < |contents| ==>
      base[p] == contents[k * SECTOR_SIZE + p]
    requires i < |Splice(contents, k * SECTOR_SIZE + o, piece)| && i < |secs| * SECTOR_SIZE
    ensures Splice(contents, k * SECTOR_SIZE + o, piece)[i] == ByteAt(view[secs[k] := Patch(base, o, piece)], secs, i)
  {
    hide Splice;
    SpliceAt(contents, k * SECTOR_SIZE + o, piece, i);
    var q, r := i / SECTOR_SIZE, i % SECTOR_SIZE;
    assert i == q * SECTOR_SIZE + r;
    if q == k {
      assert i == k * SECTOR_SIZE + r;
    } else {
      assert secs[q] != secs[k];
      assert contents[i] == ByteAt(view, secs, i);
    }
  }

  lemma PartialWriteRep(view: seq<Sector>, secs: seq<nat>, contents: seq<byte>, k: nat, o: nat, base: Sector,
                        piece: seq<byte>)
    requires FileRep(view, secs, contents) && AllDistinct(secs)
    requires k < |secs| && o + |piece| <= SECTOR_SIZE && k * SECTOR_SIZE + o <= |contents|
    requires forall p :: 0 <= p < SECTOR_SIZE && k * SECTOR_SIZE + p < |contents| ==>
      base[p] == contents[k * SECTOR_SIZE + p]
    ensures FileRep(view[secs[k] := Patch(base, o, piece)], secs, Splice(contents, k * SECTOR_SIZE + o, piece))
  {
    hide Splice, ByteAt, Patch;
    var c' := Splice(contents, k * SECTOR_SIZE + o, piece);
    assert |c'| <= |secs| * SECTOR_SIZE;
    forall i | 0 <= i < |c'|
      ensures c'[i] == ByteAt(view[secs[k] := Patch(base, o, piece)], secs, i)
    {
      PartialWriteByte(view, secs, contents, k, o, base, piece, i);
    }
  }

  /** Whole sectors read at a sector boundary. */
  lemma DirectReadRep(view: seq<Sector>, secs: seq<nat>, contents: seq<byte>, k: nat, s: nat, cc: nat)
    requires FileRep(view, secs, contents) && s + cc <= |view|
    requires Consecutive(secs, k, s, cc) && (k + cc) * SECTOR_SIZE <= |contents|
    ensures ReadRun(view, s, cc) == contents[k * SECTOR_SIZE..(k + cc) * SECTOR_SIZE]
  {
    forall i | 0 <= i < cc * SECTOR_SIZE
      ensures ReadRun(view, s, cc)[i] == contents[k * SECTOR_SIZE + i]
    {
      var q := i / SECTOR_SIZE;
      assert secs[k + q] == s + (k + q - k);
      assert contents[k * SECTOR_SIZE + i] == ByteAt(view, secs, k * SECTOR_SIZE + i);
      assert (k * SECTOR_SIZE + i) / SECTOR_SIZE == k + q;
    }
  }

  /** Part of one sector read. */
  lemma PartialReadRep(view: seq<Sector>, secs: seq<nat>, contents: seq<byte>, k: nat, o: nat, n: nat)
    requires FileRep(view, secs, contents) && k < |secs| && o + n <= SECTOR_SIZE
    requires k * SECTOR_SIZE + o + n <= |contents|
    ensures view[secs[k]][o..o + n] == contents[k * SECTOR_SIZE + o..k * SECTOR_SIZE + o + n]
  {
    var a := k * SECTOR_SIZE;
    forall i | a + o <= i < a + o + n
      ensures contents[i] == view[secs[k]][i - a]
    {
      assert contents[i] == ByteAt(view, secs, i);
    }
  }

  /** disk_read of a run with the dirty sector laid over it reads the view. */
  lemma Overlay(vol: seq<Sector>, s: nat, cc: nat, sect: nat, buf: Sector)
    requires s + cc <= |vol| && sect < |vol|
    ensures ReadRun(vol[sect := buf], s, cc) ==
      if s <= sect < s + cc then Patch(ReadRun(vol, s, cc), (sect - s) * SECTOR_SIZE, buf) else ReadRun(vol, s, cc)
  {
    forall i | 0 <= i < cc * SECTOR_SIZE
      ensures ReadRun(vol[sect := buf], s, cc)[i] == OverlaidByte(vol, s, sect, buf, i)
    {
    }
    if s <= sect < s + cc {
      var r := Patch(ReadRun(vol, s, cc), (sect - s) * SECTOR_SIZE, buf);
      forall i | 0 <= i < cc * SECTOR_SIZE
        ensures r[i] == OverlaidByte(vol, s, sect, buf, i)
      {
        PatchAt(ReadRun(vol, s, cc), (sect - s) * SECTOR_SIZE, buf, i);
      }
    }
  }

  ghost function OverlaidByte(vol: seq<Sector>, s: nat, sect: nat, buf: Sector, i: nat): byte
    requires s + i / SECTOR_SIZE < |vol|
  {
    if s + i / SECTOR_SIZE == sect then buf[i % SECTOR_SIZE] else vol[s + i / SECTOR_SIZE][i % SECTOR_SIZE]
  }

  /** A volume with a buffered sector laid over it; sector number 0 means no sector. */
  ghost function Over(vol: seq<Sector>, sect: nat, buf: Sector): (view: seq<Sector>)
    requires sect < |vol|
    ensures |view| == |vol|
  {
    if sect != 0 then vol[sect := buf] else vol
  }

  /** A file stays put while the table changes and its chain grows. */
  lemma RepAcross(g: Geo, vol: seq<Sector>, vol': seq<Sector>, sect: nat, buf: Sector,
                  ch: seq<nat>, ch': seq<nat>, contents: seq<byte>)
    requires IsVolume(g, vol) && IsVolume(g, vol') && SameOutsideFats(g, vol, vol')
    requires sect < g.devSize && InArea(g, ch') && ch <= ch' && InArea(g, ch)
    requires FileRep(Over(vol, sect, buf), Sectors(g, ch), contents)
    ensures FileRep(Over(vol', sect, buf), Sectors(g, ch'), contents)
  {
    hide Sectors;
    forall s | s in Sectors(g, ch')
      ensures s < g.devSize && g.OutsideFats(s)
    {
      SectorsInData(g, ch', s);
    }
    SectorsPrefix(g, ch, ch');
    assert forall s :: s in Sectors(g, ch) ==> s in Sectors(g, ch');
    assert forall k :: 0 <= k < |Sectors(g, ch')| ==> Sectors(g, ch')[k] in Sectors(g, ch');
    RepFrame(Over(vol, sect, buf), Sectors(g, ch), contents, Over(vol', sect, buf));
    RepLonger(Over(vol', sect, buf), Sectors(g, ch), contents, Sectors(g, ch'));
  }

  /** Only a dirty buffer needs laying over. */
  lemma OverlayDirty(vol: seq<Sector>, s: nat, cc: nat, sect: nat, dirty: bool, buf: Sector)
    requires s + cc <= |vol| && sect < |vol| && (dirty ==> sect != 0)
    requires sect != 0 && !dirty ==> buf == vol[sect]
    ensures ReadRun(Over(vol, sect, buf), s, cc) ==
      if dirty && s <= sect < s + cc then Patch(ReadRun(vol, s, cc), (sect - s) * SECTOR_SIZE, buf)
        else ReadRun(vol, s, cc)
  {
    hide ReadRun;
    if dirty {
      Overlay(vol, s, cc, sect, buf);
    } else if sect != 0 {
      assert vol[sect := buf] == vol;
    }
  }

  /**
    A file in memory: its chain is in the table, neither the window nor a clean
    buffer hides newer bytes of it, and the volume under the buffer holds its bytes.
    */
  ghost predicate FileState(g: Geo, vol: seq<Sector>, winsect: nat, ch: seq<nat>, contents: seq<byte>,
                            sect: nat, dirty: bool, buf: Sector)
  {
    && IsVolume(g, vol) && Holds(Fat(g, vol), ch) && InArea(g, ch)
    && sect < g.devSize
    && (sect != 0 ==> g.database <= sect && sect != winsect)
    && (sect != 0 && !dirty ==> buf == vol[sect])
    && (dirty ==> sect in Sectors(g, ch))
    && winsect !in Sectors(g, ch)
    && FileRep(Over(vol, sect, buf), Sectors(g, ch), contents)
  }

  /** Such a file survives table changes that grow its chain. */
  lemma StateAcross(g: Geo, vol: seq<Sector>, winsect: nat, ch: seq<nat>, contents: seq<byte>, sect: nat, dirty: bool,
                    buf: Sector,
                    vol': seq<Sector>, winsect': nat, ch': seq<nat>)
    requires FileState(g, vol, winsect, ch, contents, sect, dirty, buf)
    requires IsVolume(g, vol') && SameOutsideFats(g, vol, vol')
    requires Extended(Fat(g, vol), ch, Fat(g, vol'), ch')
    requires g.InFat1(winsect') || (winsect' == winsect && ch' == ch)
    ensures FileState(g, vol', winsect', ch', contents, sect, dirty, buf)
  {
    hide Sectors, FileRep, Fat;
    ChainInArea(g, vol', ch');
    RepAcross(g, vol, vol', sect, buf, ch, ch', contents);
    SectorsPrefix(g, ch, ch');
    if winsect' in Sectors(g, ch') {
      SectorsInData(g, ch', winsect');
    }
  }

  lemma ChainInArea(g: Geo, vol: seq<Sector>, ch: seq<nat>)
    requires IsVolume(g, vol) && Holds(Fat(g, vol), ch)
    ensures InArea(g, ch)
  {
  }

  lemma StateChain(g: Geo, vol: seq<Sector>, winsect: nat, ch: seq<nat>, contents: seq<byte>, sect: nat, dirty: bool,
                   buf: Sector)
    requires FileState(g, vol, winsect, ch, contents, sect, dirty, buf)
    ensures Holds(Fat(g, vol), ch)
  {
  }

  lemma StateBuffer(g: Geo, vol: seq<Sector>, winsect: nat, ch: seq<nat>, contents: seq<byte>, sect: nat, dirty: bool,
                    buf: Sector)
    requires FileState(g, vol, winsect, ch, contents, sect, dirty, buf)
    ensures sect < g.devSize
    ensures sect != 0 ==> g.database <= sect && sect != winsect && (!dirty ==> buf == vol[sect])
    ensures dirty ==> InArea(g, ch) && sect in Sectors(g, ch) && sect != 0
  {
    hide Sectors;
    if dirty {
      SectorsInData(g, ch, sect);
    }
  }

  /** The sectors of such a file. */
  lemma StateSectors(g: Geo, vol: seq<Sector>, winsect: nat, ch: seq<nat>, contents: seq<byte>, sect: nat, dirty: bool,
                     buf: Sector)
    requires FileState(g, vol, winsect, ch, contents, sect, dirty, buf)
    ensures InArea(g, ch) && g.csize > 0 && AllDistinct(Sectors(g, ch))
    ensures forall s :: s in Sectors(g, ch) ==> g.database <= s < g.devSize && s != winsect
    ensures |contents| <= |Sectors(g, ch)| * SECTOR_SIZE
  {
    hide Sectors, Fat;
    var secs := Sectors(g, ch);
    forall k, l | 0 <= k < |secs| && 0 <= l < |secs| && secs[k] == secs[l]
      ensures k == l
    {
      SectorsDistinct(g, ch, k, l);
    }
    forall s | s in secs
      ensures g.database <= s < g.devSize && s != winsect
    {
      SectorsInData(g, ch, s);
    }
  }

  /** Nothing but the table and the sectors of a chain differs. */
  ghost predicate OnlyChain(g: Geo, vol: seq<Sector>, vol': seq<Sector>, ch: seq<nat>)
    requires IsVolume(g, vol) && IsVolume(g, vol') && InArea(g, ch)
  {
    forall s: nat :: s < g.devSize && g.OutsideFats(s) && s !in Sectors(g, ch) ==> vol'[s] == vol[s]
  }

  lemma OnlyChainRefl(g: Geo, vol: seq<Sector>, ch: seq<nat>)
    requires IsVolume(g, vol) && InArea(g, ch)
    ensures OnlyChain(g, vol, vol, ch)
  {
  }

  lemma TableOnly(g: Geo, vol: seq<Sector>, vol': seq<Sector>, ch: seq<nat>)
    requires IsVolume(g, vol) && IsVolume(g, vol') && InArea(g, ch) && SameOutsideFats(g, vol, vol')
    ensures OnlyChain(g, vol, vol', ch)
  {
  }

  lemma OnlyChainTrans(g: Geo, vol: seq<Sector>, vol1: seq<Sector>, ch1: seq<nat>, vol2: seq<Sector>, ch2: seq<nat>)
    requires IsVolume(g, vol) && IsVolume(g, vol1) && IsVolume(g, vol2) && InArea(g, ch1) && InArea(g, ch2)
    requires OnlyChain(g, vol, vol1, ch1) && OnlyChain(g, vol1, vol2, ch2) && ch1 <= ch2
    ensures OnlyChain(g, vol, vol2, ch2)
  {
    hide Sectors;
    SectorsPrefix(g, ch1, ch2);
  }

  /** A clean buffer adds nothing to the volume. */
  lemma CleanOver(vol: seq<Sector>, sect: nat, buf: Sector)
    requires sect < |vol| && (sect != 0 ==> buf == vol[sect])
    ensures Over(vol, sect, buf) == vol
  {
  }

  lemma StateFlushed(g: Geo, vol: seq<Sector>, winsect: nat, ch: seq<nat>, contents: seq<byte>, sect: nat, buf: Sector)
    requires FileState(g, vol, winsect, ch, contents, sect, true, buf)
    ensures 0 < sect < g.devSize
    ensures IsVolume(g, vol[sect := buf]) && Fat(g, vol[sect := buf]) == Fat(g, vol)
    ensures FileState(g, vol[sect := buf], winsect, ch, contents, sect, false, buf)
    ensures Over(vol, sect, buf) == Over(vol[sect := buf], sect, buf) == vol[sect := buf]
  {
    hide Sectors, FileRep, Fat, Holds;
    SectorsInData(g, ch, sect);
    FatFrame(g, vol, vol[sect := buf]);
    assert Over(vol[sect := buf], sect, buf) == Over(vol, sect, buf);
  }

  /** A piece put into the buffered sector, or into a fresh buffer at the growing edge. */
  lemma StatePatched(g: Geo, vol: seq<Sector>, winsect: nat, ch: seq<nat>, contents: seq<byte>, sect: nat, dirty: bool,
                     buf: Sector,
                     k: nat, o: nat, s: nat, piece: seq<byte>)
    requires FileState(g, vol, winsect, ch, contents, sect, dirty, buf)
    requires k < |Sectors(g, ch)| && s == Sectors(g, ch)[k]
    requires o + |piece| <= SECTOR_SIZE && k * SECTOR_SIZE + o <= |contents|
    requires sect == s || (!dirty && o == 0 && k * SECTOR_SIZE == |contents|)
    ensures s < g.devSize
    ensures FileState(g, vol, winsect, ch, Splice(contents, k * SECTOR_SIZE + o, piece), s, true, Patch(buf, o, piece))
  {
    hide Sectors, Fat, Holds, Splice, Patch, ByteAt;
    var secs := Sectors(g, ch);
    StateSectors(g, vol, winsect, ch, contents, sect, dirty, buf);
    var view := Over(vol, sect, buf);
    assert s in secs;
    if !dirty {
      CleanOver(vol, sect, buf);
    }
    forall p | 0 <= p < SECTOR_SIZE && k * SECTOR_SIZE + p < |contents|
      ensures buf[p] == contents[k * SECTOR_SIZE + p]
    {
      BufferedByte(view, secs, contents, k, p);
    }
    PartialWriteRep(view, secs, contents, k, o, buf, piece);
    assert view[s := Patch(buf, o, piece)] == Over(vol, s, Patch(buf, o, piece));
  }

  lemma BufferedByte(view: seq<Sector>, secs: seq<nat>, contents: seq<byte>, k: nat, p: nat)
    requires FileRep(view, secs, contents) && k < |secs| && p < SECTOR_SIZE && k * SECTOR_SIZE + p < |contents|
    ensures contents[k * SECTOR_SIZE + p] == view[secs[k]][p]
  {
    assert contents[k * SECTOR_SIZE + p] == ByteAt(view, secs, k * SECTOR_SIZE + p);
  }

  /** Whole sectors written past a clean buffer, which is refreshed when it shows one of them. */
  lemma StateDirect(g: Geo, vol: seq<Sector>, winsect: nat, ch: seq<nat>, contents: seq<byte>, sect: nat, buf: Sector,
                    k: nat, s: nat, data: seq<byte>, buf': Sector)
    requires FileState(g, vol, winsect, ch, contents, sect, false, buf)
    requires |data| % SECTOR_SIZE == 0 && s + |data| / SECTOR_SIZE <= g.devSize && g.database <= s
    requires Consecutive(Sectors(g, ch), k, s, |data| / SECTOR_SIZE) && k * SECTOR_SIZE <= |contents|
    requires buf' == if s <= sect < s + |data| / SECTOR_SIZE
      then data[(sect - s) * SECTOR_SIZE..(sect - s) * SECTOR_SIZE + SECTOR_SIZE] else buf
    ensures var vol' := WriteRun(vol, s, data);
      IsVolume(g, vol') && Fat(g, vol') == Fat(g, vol) &&
      FileState(g, vol', winsect, ch, Splice(contents, k * SECTOR_SIZE, data), sect, false, buf')
  {
    hide Sectors, Fat, Holds, Splice;
    var vol', secs := WriteRun(vol, s, data), Sectors(g, ch);
    StateSectors(g, vol, winsect, ch, contents, sect, false, buf);
    CleanOver(vol, sect, buf);
    DirectWriteRep(vol, secs, contents, k, s, data);
    FatFrame(g, vol, vol');
    CleanOver(vol', sect, buf');
  }

  /** A clean buffer may be refilled with any sector of the file. */
  lemma StateLoaded(g: Geo, vol: seq<Sector>, winsect: nat, ch: seq<nat>, contents: seq<byte>, sect: nat, buf: Sector,
                    s: nat)
    requires FileState(g, vol, winsect, ch, contents, sect, false, buf)
    requires s in Sectors(g, ch)
    ensures s < g.devSize
    ensures FileState(g, vol, winsect, ch, contents, s, false, vol[s])
  {
    hide Sectors, Fat, Holds, FileRep;
    StateSectors(g, vol, winsect, ch, contents, sect, false, buf);
    CleanOver(vol, sect, buf);
    CleanOver(vol, s, vol[s]);
  }

  /** The sectors of one cluster follow each other, on the device as in the file. */
  lemma RunInCluster(g: Geo, ch: seq<nat>, k: nat, cc: nat)
    requires g.Valid() && InArea(g, ch) && CluIdx(g.csize, k) < |ch| && CluOfs(g.csize, k) + cc <= g.csize
    ensures k < |Sectors(g, ch)| && Sectors(g, ch)[k] == g.FirstSector(ch[CluIdx(g.csize, k)]) + CluOfs(g.csize, k)
    ensures Consecutive(Sectors(g, ch), k, g.FirstSector(ch[CluIdx(g.csize, k)]) + CluOfs(g.csize, k), cc)
    ensures g.database <= g.FirstSector(ch[CluIdx(g.csize, k)])
    ensures g.FirstSector(ch[CluIdx(g.csize, k)]) + g.csize <= g.devSize
  {
    hide CluIdx, CluOfs, Sectors;
    var i, b := CluIdx(g.csize, k), CluOfs(g.csize, k);
    Locate(g.csize, k);
    SectorsAt(g, ch, i, b);
    ClusterRuns(g, ch[i], ch[i]);
    forall q | k <= q < k + cc
      ensures q < |Sectors(g, ch)| && Sectors(g, ch)[q] == g.FirstSector(ch[i]) + b + (q - k)
    {
      SectorsAt(g, ch, i, b + (q - k));
    }
    if cc > 0 {
      SectorsAt(g, ch, i, b + cc - 1);
    }
  }

  lemma SameClusterFurther(csize: nat, k: nat, d: nat)
    requires csize > 0 && CluOfs(csize, k) + d < csize
    ensures CluIdx(csize, k + d) == CluIdx(csize, k)
  {
    hide CluIdx, CluOfs;
    Locate(csize, k);
    LocateUnique(csize, k + d, CluIdx(csize, k), CluOfs(csize, k) + d);
  }

  /** The sector before the first of a cluster belongs to the cluster before. */
  lemma PreviousCluster(csize: nat, k: nat)
    requires csize > 0 && k > 0 && CluOfs(csize, k) == 0
    ensures CluIdx(csize, k) > 0 && CluIdx(csize, k - 1) == CluIdx(csize, k) - 1
  {
    hide CluIdx, CluOfs;
    Locate(csize, k);
    LocateUnique(csize, k - 1, CluIdx(csize, k) - 1, csize - 1);
  }

  /** Inside a cluster the sector before belongs to the same cluster. */
  lemma SameCluster(csize: nat, k: nat)
    requires csize > 0 && CluOfs(csize, k) > 0
    ensures k > 0 && CluIdx(csize, k - 1) == CluIdx(csize, k)
  {
    hide CluIdx, CluOfs;
    Locate(csize, k);
    LocateUnique(csize, k - 1, CluIdx(csize, k), CluOfs(csize, k) - 1);
  }

  // ---- byte positions and clusters

  /** Offset of the first byte of cluster number i of a file. */
  ghost function Bound(csize: nat, i: nat): nat {
    RunLength(csize, i) * SECTOR_SIZE
  }

  lemma BoundNext(csize: nat, i: nat)
    ensures Bound(csize, 0) == 0 && Bound(csize, i + 1) == Bound(csize, i) + csize * SECTOR_SIZE
  {
  }

  lemma BoundWhole(csize: nat, i: nat, ofs: nat)
    ensures (Bound(csize, i) + ofs) % SECTOR_SIZE == ofs % SECTOR_SIZE
  {
  }

  /** A byte between the bounds of a cluster is in that cluster. */
  lemma ClusterOfByte(csize: nat, x: nat, i: nat)
    requires csize > 0 && Bound(csize, i) <= x < Bound(csize, i + 1)
    ensures CluIdx(csize, x / SECTOR_SIZE) == i
    ensures x / SECTOR_SIZE == RunLength(csize, i) + (x - Bound(csize, i)) / SECTOR_SIZE
    ensures (x - Bound(csize, i)) / SECTOR_SIZE < csize
    ensures x % SECTOR_SIZE == (x - Bound(csize, i)) % SECTOR_SIZE
  {
    hide CluIdx, CluOfs;
    var r := RunLength(csize, i);
    LocateUnique(csize, x / SECTOR_SIZE, i, x / SECTOR_SIZE - r);
  }

  lemma BoundsOfByte(csize: nat, x: nat)
    requires csize > 0
    ensures var i := CluIdx(csize, x / SECTOR_SIZE); Bound(csize, i) <= x < Bound(csize, i + 1)
  {
    hide CluIdx, CluOfs;
    Locate(csize, x / SECTOR_SIZE);
  }

  lemma {:induction false} BoundIsRun(csize: nat, i: nat)
    ensures Bound(csize, i) == RunLength(csize * SECTOR_SIZE, i)
  {
    if i > 0 {
      BoundIsRun(csize, i - 1);
    }
  }

  /** The source divides offsets by the cluster size in bytes. */
  lemma ByteCluster(csize: nat, x: nat)
    requires csize > 0
    ensures x / (csize * SECTOR_SIZE) == CluIdx(csize, x / SECTOR_SIZE)
    ensures x - x % (csize * SECTOR_SIZE) == Bound(csize, CluIdx(csize, x / SECTOR_SIZE))
  {
    var i, b := CluIdx(csize, x / SECTOR_SIZE), csize * SECTOR_SIZE;
    assert CluIdx(b, x) == i && CluOfs(b, x) == x - Bound(csize, i) by {
      hide CluIdx, CluOfs;
      BoundsOfByte(csize, x);
      BoundNext(csize, i);
      BoundIsRun(csize, i);
      LocateUnique(b, x, i, x - Bound(csize, i));
    }
  }

  /** A cluster that is not after the target's starts before the target. */
  lemma StartBelow(csize: nat, target: nat, p: nat)
    requires csize > 0 && target > 0 && p > 0
    requires CluIdx(csize, (target - 1) / SECTOR_SIZE) >= CluIdx(csize, (p - 1) / SECTOR_SIZE)
    ensures Bound(csize, CluIdx(csize, (p - 1) / SECTOR_SIZE)) < target
  {
    hide CluIdx;
    var a, b := CluIdx(csize, (p - 1) / SECTOR_SIZE), CluIdx(csize, (target - 1) / SECTOR_SIZE);
    BoundsOfByte(csize, target - 1);
    if a < b {
      RunsApart(csize, a, b);
    }
  }

  /** A byte the sectors of a chain hold lies before the end of its last cluster. */
  lemma BoundBelow(g: Geo, ch: seq<nat>, x: nat, i: nat)
    requires InArea(g, ch) && x == Bound(g.csize, i) && x < |Sectors(g, ch)| * SECTOR_SIZE
    ensures i < |ch|
  {
    hide Sectors;
    if |ch| < i {
      RunsApart(g.csize, |ch|, i);
    }
  }

  /** Clusters up to number j make room for the bytes up to the end of that cluster. */
  lemma RoomInCluster(g: Geo, ch: seq<nat>, j: nat, x: nat)
    requires InArea(g, ch) && j < |ch| && x <= Bound(g.csize, j + 1)
    ensures x <= |Sectors(g, ch)| * SECTOR_SIZE
  {
    hide Sectors;
    if j + 1 < |ch| {
      RunsApart(g.csize, j + 1, |ch|);
    }
  }

  /** The sector of a byte position inside a sector of cluster number j. */
  lemma PlaceInCluster(g: Geo, ch: seq<nat>, j: nat, x: nat)
    requires g.csize > 0 && InArea(g, ch) && j < |ch|
    requires Bound(g.csize, j) < x <= Bound(g.csize, j) + g.csize * SECTOR_SIZE
    requires (x - Bound(g.csize, j)) % SECTOR_SIZE != 0
    ensures x % SECTOR_SIZE != 0 && x / SECTOR_SIZE < |Sectors(g, ch)|
    ensures Sectors(g, ch)[x / SECTOR_SIZE] == g.FirstSector(ch[j]) + (x - Bound(g.csize, j)) / SECTOR_SIZE
  {
    hide Sectors, CluIdx, CluOfs;
    var d := x - Bound(g.csize, j);
    ClusterOfByte(g.csize, x, j);
    SectorsAt(g, ch, j, d / SECTOR_SIZE);
  }

  /** Clusters that x bytes need. */
  ghost function ClustersFor(csize: nat, x: nat): nat
    requires csize > 0
  {
    if x == 0 then 0 else CluIdx(csize, (x - 1) / SECTOR_SIZE) + 1
  }

  /** A position inside cluster number i, or at its end, needs i + 1 clusters. */
  lemma ClustersOf(csize: nat, x: nat, i: nat)
    requires csize > 0 && Bound(csize, i) < x <= Bound(csize, i + 1)
    ensures ClustersFor(csize, x) == i + 1
  {
    hide CluIdx, Bound;
    ClusterOfByte(csize, x - 1, i);
  }

  /** A position behind cluster number i needs more than i clusters. */
  lemma ClustersPast(csize: nat, x: nat, i: nat)
    requires csize > 0 && Bound(csize, i) < x
    ensures ClustersFor(csize, x) > i
  {
    hide CluIdx, ClustersFor, Bound;
    ClustersHold(csize, x);
    if ClustersFor(csize, x) <= i {
      BoundMono(csize, ClustersFor(csize, x), i);
    }
  }

  /** That many clusters are just enough. */
  lemma ClustersHold(csize: nat, x: nat)
    requires csize > 0
    ensures x <= Bound(csize, ClustersFor(csize, x))
    ensures x > 0 ==> Bound(csize, ClustersFor(csize, x) - 1) < x
  {
    hide CluIdx;
    if x > 0 {
      BoundsOfByte(csize, x - 1);
    }
  }

  lemma BoundMono(csize: nat, i: nat, k: nat)
    requires csize > 0 && i <= k
    ensures Bound(csize, i) <= Bound(csize, k) && (i < k ==> Bound(csize, i) < Bound(csize, k))
  {
    if i < k {
      RunsApart(csize, i, k);
    }
  }

  lemma ClustersMono(csize: nat, x: nat, y: nat)
    requires csize > 0 && x <= y
    ensures ClustersFor(csize, x) <= ClustersFor(csize, y)
  {
    hide ClustersFor, Bound;
    ClustersHold(csize, x);
    ClustersHold(csize, y);
    var a, b := ClustersFor(csize, x), ClustersFor(csize, y);
    if b < a && x > 0 {
      BoundMono(csize, b, a - 1);
    }
    if x == 0 {
      NoClusters(csize);
    }
  }

  /** A position fits into so many clusters when it is not behind their end. */
  lemma ClustersFit(csize: nat, x: nat, n: nat)
    requires csize > 0
    ensures ClustersFor(csize, x) <= n <==> x <= Bound(csize, n)
  {
    hide Bound, ClustersFor;
    ClustersHold(csize, x);
    var c := ClustersFor(csize, x);
    NoClusters(csize);
    if c <= n {
      BoundMono(csize, c, n);
    } else {
      BoundMono(csize, n, c - 1);
    }
  }

  lemma NoClusters(csize: nat)
    requires csize > 0
    ensures ClustersFor(csize, 0) == 0
  {
  }

  lemma BoundOfChain(g: Geo, ch: seq<nat>)
    requires InArea(g, ch)
    ensures Bound(g.csize, |ch|) == |Sectors(g, ch)| * SECTOR_SIZE
  {
  }

  lemma EndOfChain(g: Geo, ch: seq<nat>, j: nat)
    requires g.csize > 0 && InArea(g, ch) && j + 1 == |ch|
    ensures Bound(g.csize, j + 1) == |Sectors(g, ch)| * SECTOR_SIZE
    ensures Bound(g.csize, j) < Bound(g.csize, j + 1)
  {
  }

  // ---- growing a file over what its sectors hold

  /** The first n bytes the sectors hold. */
  ghost function BytesOf(view: seq<Sector>, secs: seq<nat>, n: nat): (r: seq<byte>)
    requires n <= |secs| * SECTOR_SIZE && forall k :: 0 <= k < |secs| ==> secs[k] < |view|
    ensures |r| == n
  {
    seq(n, i requires 0 <= i < n => ByteAt(view, secs, i))
  }

  lemma RepGrown(view: seq<Sector>, secs: seq<nat>, contents: seq<byte>, n: nat)
    requires FileRep(view, secs, contents) && |contents| <= n <= |secs| * SECTOR_SIZE
    ensures FileRep(view, secs, BytesOf(view, secs, n))
    ensures contents <= BytesOf(view, secs, n)
  {
  }

  /** The table lost the tail of the chain; a dirty buffer goes to its sector all the same. */
  ghost function AfterFlush(vol: seq<Sector>, sect: nat, dirty: bool, buf: Sector): seq<Sector>
    requires dirty ==> sect < |vol|
  {
    if dirty then vol[sect := buf] else vol
  }

  lemma StateCut(g: Geo, vol: seq<Sector>, winsect: nat, ch: seq<nat>, contents: seq<byte>, sect: nat, dirty: bool,
                 buf: Sector,
                 vol': seq<Sector>, winsect': nat, m: nat, n: nat)
    requires FileState(g, vol, winsect, ch, contents, sect, dirty, buf)
    requires IsVolume(g, vol') && SameOutsideFats(g, vol, vol') && g.InFat1(winsect')
    requires Cut(Fat(g, vol), ch, m, Fat(g, vol'))
    requires n <= |contents| && n <= Bound(g.csize, m)
    ensures InArea(g, ch) && sect < g.devSize
    ensures dirty ==> sect != winsect' && g.database <= sect
    ensures var vol2 := AfterFlush(vol', sect, dirty, buf);
      && IsVolume(g, vol2)
      && FileState(g, vol2, winsect', ch[..m], contents[..n], sect, false, buf)
      && OnlyChain(g, vol, vol2, ch)
  {
    hide Sectors, Fat, Holds, FileRep;
    var h, vol2 := ch[..m], AfterFlush(vol', sect, dirty, buf);
    StateBuffer(g, vol, winsect, ch, contents, sect, dirty, buf);
    FatFrame(g, vol', vol2);
    SectorsPrefix(g, h, ch);
    forall s | s in Sectors(g, ch)
      ensures g.database <= s < g.devSize
    {
      SectorsInData(g, ch, s);
    }
    BoundOfChain(g, h);
    assert forall s :: s in Sectors(g, h) ==> s in Sectors(g, ch);
    forall s | s in Sectors(g, h)
      ensures Over(vol2, sect, buf)[s] == Over(vol, sect, buf)[s]
    {
      assert g.OutsideFats(s);
    }
    RepCut(Over(vol, sect, buf), Sectors(g, ch), contents, Sectors(g, h), n);
    RepFrame(Over(vol, sect, buf), Sectors(g, h), contents[..n], Over(vol2, sect, buf));
  }

  lemma RepCut(view: seq<Sector>, secs: seq<nat>, contents: seq<byte>, secs': seq<nat>, n: nat)
    requires FileRep(view, secs, contents) && secs' <= secs && n <= |contents| && n <= |secs'| * SECTOR_SIZE
    ensures FileRep(view, secs', contents[..n])
  {
    forall i | 0 <= i < n
      ensures contents[..n][i] == ByteAt(view, secs', i)
    {
      assert contents[i] == ByteAt(view, secs, i);
    }
  }

  /** Changes outside the file and the table do not touch it. */
  lemma StateElsewhere(g: Geo, vol: seq<Sector>, winsect: nat, ch: seq<nat>, contents: seq<byte>, sect: nat,
                       dirty: bool, buf: Sector,
                       vol': seq<Sector>, winsect': nat)
    requires FileState(g, vol, winsect, ch, contents, sect, dirty, buf)
    requires IsVolume(g, vol') && Fat(g, vol') == Fat(g, vol)
    requires forall s :: s in Sectors(g, ch) && s < g.devSize ==> vol'[s] == vol[s]
    requires sect != 0 ==> vol'[sect] == vol[sect] && winsect' != sect
    requires winsect' !in Sectors(g, ch)
    ensures FileState(g, vol', winsect', ch, contents, sect, dirty, buf)
  {
    hide Sectors, Fat, Holds, FileRep;
    RepFrame(Over(vol, sect, buf), Sectors(g, ch), contents, Over(vol', sect, buf));
  }

  /** A file in memory survives changes to the table, to FSInfo and to sectors secs that are none of its own. */
  lemma StateUndisturbed(g: Geo, vol: seq<Sector>, winsect: nat, ch: seq<nat>, contents: seq<byte>, sect: nat,
                         dirty: bool, buf: Sector,
                         vol': seq<Sector>, winsect': nat, secs: seq<nat>)
    requires FileState(g, vol, winsect, ch, contents, sect, dirty, buf)
    requires IsVolume(g, vol') && Holds(Fat(g, vol'), ch)
    requires forall s: nat :: s < g.devSize && g.OutsideFats(s) && s !in secs && s != g.volbase + 1 ==>
      vol'[s] == vol[s]
    requires winsect' == winsect || g.InFat1(winsect') || winsect' in secs || winsect' == g.volbase + 1
    requires (OfChain(g, ch, sect) || sect !in secs) && forall s :: s in Sectors(g, ch) ==> s !in secs
    ensures FileState(g, vol', winsect', ch, contents, sect, dirty, buf)
  {
    hide Sectors, Fat, Holds, FileRep;
    StateSectors(g, vol, winsect, ch, contents, sect, dirty, buf);
    FsInfoApart(g, vol, winsect, ch, contents, sect, dirty, buf);
    RepFrame(Over(vol, sect, buf), Sectors(g, ch), contents, Over(vol', sect, buf));
  }

  lemma FsInfoApart(g: Geo, vol: seq<Sector>, winsect: nat, ch: seq<nat>, contents: seq<byte>, sect: nat, dirty: bool,
                    buf: Sector)
    requires FileState(g, vol, winsect, ch, contents, sect, dirty, buf)
    ensures g.volbase + 1 !in Sectors(g, ch) && g.volbase + 1 < g.database && (sect != 0 ==> g.volbase + 1 != sect)
  {
    hide Sectors, Fat, Holds, FileRep;
    if g.volbase + 1 in Sectors(g, ch) {
      SectorsInData(g, ch, g.volbase + 1);
    }
  }
}
