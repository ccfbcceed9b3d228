/**
  The cluster link map: the runs of consecutive clusters of a file, so that a
  cluster is found from an offset without following the chain (the builder in
  f_lseek and clmt_clust).
  */
module LinkMap {
  import opened Bytes
  import opened Geometry
  import opened FatTable
  import opened FileSystem
  import opened Chains
  import opened FileData

  /** Clusters that follow each other in number from position i of the chain on. */
  ghost function RunFrom(ch: seq<nat>, i: nat): (n: nat)
    requires i < |ch|
    ensures 1 <= n <= |ch| - i
    decreases |ch| - i
  {
    if i + 1 < |ch| && ch[i + 1] == ch[i] + 1 then 1 + RunFrom(ch, i + 1) else 1
  }

  /** Length and first cluster of every run from position i on. */
  ghost function Runs(ch: seq<nat>, i: nat): (t: seq<nat>)
    requires i <= |ch|
    ensures |t| % 2 == 0
    decreases |ch| - i
  {
    if i == |ch| then [] else [RunFrom(ch, i), ch[i]] + Runs(ch, i + RunFrom(ch, i))
  }

  /** The finished map: its size, the runs, a zero. */
  ghost function Map(ch: seq<nat>): seq<nat> {
    [|Runs(ch, 0)| + 2] + Runs(ch, 0) + [0]
  }

  lemma {:induction false} RunIsConsecutive(ch: seq<nat>, i: nat, d: nat)
    requires i < |ch| && d < RunFrom(ch, i)
    ensures ch[i + d] == ch[i] + d
    decreases d
  {
    if d > 0 {
      RunIsConsecutive(ch, i + 1, d - 1);
    }
  }

  // ---- looking a cluster up

  /** What the loop of clmt_clust answers from entry at of a map on, cl clusters further. */
  ghost function Lookup(lm: seq<nat>, at: nat, cl: nat): nat
    decreases |lm| - at
  {
    if at + 1 >= |lm| || lm[at] == 0 then 0
    else if cl < lm[at] then cl + lm[at + 1]
    else Lookup(lm, at + 2, cl - lm[at])
  }

  /** On the map of a chain the answer is the cluster itself, or 0 behind the end. */
  lemma {:induction false} LookupFinds(ch: seq<nat>, i: nat, lm: seq<nat>, at: nat, cl: nat)
    requires i <= |ch| && at <= |lm| && lm[at..] == Runs(ch, i) + [0]
    ensures Lookup(lm, at, cl) == if i + cl < |ch| then ch[i + cl] else 0
    decreases |ch| - i
  {
    if i == |ch| {
      assert |lm[at..]| == 1;
    } else {
      var n := RunFrom(ch, i);
      assert lm[at] == lm[at..][0] == n && lm[at + 1] == lm[at..][1] == ch[i];
      if cl < n {
        RunIsConsecutive(ch, i, cl);
      } else {
        assert lm[at + 2..] == lm[at..][2..] == Runs(ch, i + n) + [0];
        LookupFinds(ch, i + n, lm, at + 2, cl - n);
      }
    }
  }

  /** clmt_clust: the cluster of a byte offset, along the map of the chain. */
  method ClmtClust(g: Geo, cltbl: array<nat>, ofs: nat, ghost ch: seq<nat>) returns (r: nat)
    requires g.csize > 0 && |Map(ch)| <= cltbl.Length && cltbl[..|Map(ch)|] == Map(ch)
    ensures var k := CluIdx(g.csize, ofs / SECTOR_SIZE); r == if k < |ch| then ch[k] else 0
  {
    ghost var lm := Map(ch);
    var cl: nat := ofs / SECTOR_SIZE / g.csize;
    ghost var k := CluIdx(g.csize, ofs / SECTOR_SIZE);
    assert cl == k;
    MapFollowsChain(ch, k);
    ghost var left: nat := |Runs(ch, 0)| / 2;
    assert |lm| == 2 + 2 * left && lm[|lm| - 1] == 0;
    hide CluIdx;
    hide Runs, Map, RunFrom;
    var tbl := 1;
    while true
      invariant 1 <= tbl && |lm| == tbl + 1 + 2 * left
      invariant Lookup(lm, tbl, cl) == Lookup(lm, 1, k)
      invariant lm == cltbl[..|lm|] && |lm| <= cltbl.Length && lm[|lm| - 1] == 0
      decreases left
    {
      var ncl := cltbl[tbl];
      assert ncl == lm[tbl];
      tbl := tbl + 1;
      if ncl == 0 {
        return 0;
      }
      if cl < ncl {
        break;
      }
      cl := cl - ncl;
      tbl := tbl + 1;
      left := left - 1;
    }
    return cl + cltbl[tbl];
  }

  // ---- building the map

  /** The last cluster of the volume, ended by the very next number: the builder takes the end mark for a cluster. */
  ghost predicate EndLooksLinked(fat: seq<nat>, ch: seq<nat>) {
    ch != [] && ch[|ch| - 1] + 1 == |fat| && ch[|ch| - 1] < |fat| && fat[ch[|ch| - 1]] == |fat|
  }

  /** The inner loop: follow the chain while the numbers are consecutive. */
  method FollowRun(fs: Volume, first: nat, ghost ch: seq<nat>, ghost i: nat) returns (res: Result, ncl: nat, next: nat)
    requires fs.Valid() && IsChain(fs.FatSeq(), ch) && i < |ch| && first == ch[i]
    modifies fs`disk, fs`wflag, fs`winsect, fs.win
    ensures fs.Valid() && fs.Vol() == old(fs.Vol())
    ensures res == if i + RunFrom(ch, i) == |ch| && EndLooksLinked(fs.FatSeq(), ch) then IntErr else Ok
    ensures res == Ok ==> ncl == RunFrom(ch, i)
    ensures res == Ok ==> if i + ncl < |ch| then next == ch[i + ncl] < fs.g.nFatent else next >= fs.g.nFatent
  {
    hide Volume.Valid, Volume.Vol, Fat, IsChain;
    ghost var fat := fs.FatSeq();
    var cl: nat := first;
    ncl := 0;
    while true
      invariant fs.Valid() && fs.Vol() == old(fs.Vol()) && fs.FatSeq() == fat && |fat| == fs.g.nFatent
      invariant i + ncl <= |ch|
      invariant if i + ncl < |ch| then cl == ch[i + ncl] && RunFrom(ch, i) == ncl + RunFrom(ch, i + ncl)
                else cl == |fat| && RunFrom(ch, i) == ncl && EndLooksLinked(fat, ch)
      decreases |ch| - ncl
    {
      if i + ncl < |ch| {
        ChainEntry(fat, ch, i + ncl);
      }
      var pcl := cl;
      ncl := ncl + 1;
      cl := fs.GetFat(cl);
      if cl <= 1 {
        return IntErr, ncl, cl;
      }
      if cl != pcl + 1 {
        break;
      }
    }
    return Ok, ncl, cl;
  }

  /**
    The map builder of f_lseek.  The first word of the table gives its size; the
    first word of the result is the size needed, in any case but the damaged one.
    */
  method BuildMap(fs: Volume, sclust: nat, cltbl: array<nat>, ghost ch: seq<nat>) returns (res: Result)
    requires fs.Valid() && Holds(fs.FatSeq(), ch) && sclust == (if ch == [] then 0 else ch[0])
    requires cltbl.Length >= 1 && cltbl[0] <= cltbl.Length
    modifies fs`disk, fs`wflag, fs`winsect, fs.win, cltbl
    ensures fs.Valid() && fs.Vol() == old(fs.Vol())
    ensures res ==
      if EndLooksLinked(fs.FatSeq(), ch) then IntErr else if |Map(ch)| <= old(cltbl[0]) then Ok else NotEnoughCore
    ensures res == Ok ==> |Map(ch)| <= cltbl.Length && cltbl[..|Map(ch)|] == Map(ch)
    ensures res != IntErr ==> cltbl[0] == |Map(ch)|
  {
    hide Volume.Valid, Volume.Vol, Fat, IsChain, RunFrom, Runs;
    ghost var fat := fs.FatSeq();
    ghost var i, done := 0, [];
    RunsEnd(ch);
    var tlen, ulen, tbl, cl: nat := cltbl[0], 2, 1, sclust;
    ChainStart(fat, ch);
    if cl != 0 {
      while true
        invariant fs.Valid() && fs.Vol() == old(fs.Vol()) && fs.FatSeq() == fat && |fat| == fs.g.nFatent
        invariant i < |ch| && cl == ch[i] && done + Runs(ch, i) == Runs(ch, 0)
        invariant cltbl[0] == tlen && ulen == 2 + |done| && tlen <= cltbl.Length
        invariant ulen <= tlen ==> tbl == 1 + |done| && cltbl[1..tbl] == done
        decreases |ch| - i
      {
        var tcl := cl;
        ulen := ulen + 2;
        var ncl;
        res, ncl, cl := FollowRun(fs, cl, ch, i);
        if res != Ok {
          return;
        }
        if ulen <= tlen {
          StorePair(cltbl, tbl, ncl, tcl);
          tbl := tbl + 2;
        }
        RunsOn(ch, i, done);
        i, done := i + ncl, done + [ncl, tcl];
        if cl >= fs.g.nFatent {
          break;
        }
      }
    }
    cltbl[0] := ulen;
    if ulen <= tlen {
      cltbl[tbl] := 0;
      Finished(cltbl[..], ulen, done);
      res := Ok;
    } else {
      res := NotEnoughCore;
    }
  }

  lemma RunsEnd(ch: seq<nat>)
    ensures Runs(ch, |ch|) == []
  {
  }

  lemma RunsOn(ch: seq<nat>, i: nat, done: seq<nat>)
    requires i < |ch| && done + Runs(ch, i) == Runs(ch, 0)
    ensures var n := RunFrom(ch, i); done + [n, ch[i]] + Runs(ch, i + n) == Runs(ch, 0)
    ensures i + RunFrom(ch, i) == |ch| ==> done + [RunFrom(ch, i), ch[i]] == Runs(ch, 0)
  {
    var n := RunFrom(ch, i);
    assert done + [n, ch[i]] + Runs(ch, i + n) == done + ([n, ch[i]] + Runs(ch, i + n));
  }

  /** *tbl++ = ncl; *tbl++ = tcl. */
  method StorePair(cltbl: array<nat>, tbl: nat, ncl: nat, tcl: nat)
    requires 1 <= tbl && tbl + 2 <= cltbl.Length
    modifies cltbl
    ensures cltbl[1..tbl + 2] == old(cltbl[1..tbl]) + [ncl, tcl] && cltbl[0] == old(cltbl[0])
  {
    cltbl[tbl] := ncl;
    cltbl[tbl + 1] := tcl;
  }

  /** A size, the items and a zero. */
  lemma Finished(s: seq<nat>, size: nat, items: seq<nat>)
    requires size == 2 + |items| <= |s| && s[0] == size && s[1..size - 1] == items && s[size - 1] == 0
    ensures s[..size] == [size] + items + [0]
  {
  }

  /** Looking up along a built map is following the chain: the same cluster for every offset. */
  lemma MapFollowsChain(ch: seq<nat>, cl: nat)
    ensures Lookup(Map(ch), 1, cl) == if cl < |ch| then ch[cl] else 0
  {
    assert Map(ch)[1..] == Runs(ch, 0) + [0];
    LookupFinds(ch, 0, Map(ch), 1, cl);
  }

  /** How many pieces of consecutive clusters a chain has from position i on. */
  ghost function Fragments(ch: seq<nat>, i: nat): nat
    decreases |ch| - i
  {
    if i >= |ch| then 0
    else (if i + 1 < |ch| && ch[i + 1] == ch[i] + 1 then 0 else 1) + Fragments(ch, i + 1)
  }

  lemma {:induction false} OneFragment(ch: seq<nat>, i: nat)
    requires i < |ch|
    ensures Fragments(ch, i) == 1 + Fragments(ch, i + RunFrom(ch, i))
    decreases |ch| - i
  {
    if i + 1 < |ch| && ch[i + 1] == ch[i] + 1 {
      OneFragment(ch, i + 1);
    }
  }

  lemma {:induction false} TwoEach(ch: seq<nat>, i: nat)
    requires i <= |ch|
    ensures |Runs(ch, i)| == 2 * Fragments(ch, i)
    decreases |ch| - i
  {
    if i < |ch| {
      OneFragment(ch, i);
      TwoEach(ch, i + RunFrom(ch, i));
    }
  }

  /** The map is as short as it can be: two items for every fragment, and its size in front and a zero at the end. */
  lemma MapSize(ch: seq<nat>)
    ensures |Map(ch)| == 2 + 2 * Fragments(ch, 0) && Map(ch)[0] == |Map(ch)| && Map(ch)[|Map(ch)| - 1] == 0
  {
    TwoEach(ch, 0);
  }

  /** The end marks the format defines: from ..FF8 on. */
  predicate IsEndMark(t: FatType, v: nat) {
    match t
    case FAT12 => 0xFF8 <= v
    case FAT16 => 0xFFF8 <= v
    case FAT32 => 0x0FFF_FFF8 <= v
  }

  /** No end mark of the format looks like a link to the next cluster, and the mark the driver writes is one of them. */
  lemma StandardEndIsEnd(g: Geo, fat: seq<nat>, ch: seq<nat>)
    requires g.Valid() && |fat| == g.nFatent && IsChain(fat, ch)
    requires IsEndMark(g.fsType, fat[ch[|ch| - 1]])
    ensures !EndLooksLinked(fat, ch) && IsEndMark(g.fsType, EndMark(g.fsType))
  {
    EndMarkEnds(g, 0);
  }
}
