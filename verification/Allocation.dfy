/**
  Freeing and allocating clusters through the table (remove_chain, create_chain).
  Both accept any table, however damaged.
  */
module Allocation {
  import opened Bytes
  import opened Geometry
  import opened FatTable
  import opened FileSystem
  import opened Chains

  /** A cached free count that is in range is right. */
  ghost predicate CountRight(free: nat, fat: seq<nat>) {
    |fat| >= 2 && (free <= |fat| - 2 ==> free == FreeCount(fat))
  }

  lemma FreeOneCount(fat: seq<nat>, c: nat)
    requires 2 <= c < |fat| && fat[c] != 0
    ensures FreeCount(fat) < |fat| - 2 && FreeCount(fat[c := 0]) == FreeCount(fat) + 1
  {
    FreeOne(fat, c);
    FreeCountBound(fat[c := 0]);
  }

  /** One round of remove_chain: free a cluster that is in use, count it. */
  method FreeCluster(fs: Volume, clst: nat)
    requires fs.Valid() && fs.g.InRange(clst) && fs.FatSeq()[clst] != 0
    modifies fs`disk, fs`wflag, fs`winsect, fs`freeClst, fs`fsiDirty, fs.win
    ensures fs.Valid() && SameOutsideFats(fs.g, old(fs.Vol()), fs.Vol()) && fs.g.InFat1(fs.winsect)
    ensures fs.FatSeq() == old(fs.FatSeq())[clst := 0]
    ensures old(CountRight(fs.freeClst, fs.FatSeq())) ==> CountRight(fs.freeClst, fs.FatSeq())
    ensures old(fs.freeClst) > fs.g.nFatent - 2 ==> fs.freeClst == old(fs.freeClst)
  {
    hide Volume.Valid, Volume.Vol, Fat, FreeCount, UsedSet, SameOutsideFats, Mirrored;
    FreeOneCount(fs.FatSeq(), clst);
    var _ := fs.PutFat(clst, 0);
    if fs.freeClst < fs.g.nFatent - 2 {
      fs.freeClst := fs.freeClst + 1;
      fs.fsiDirty := true;
    }
  }

  /** The loop of remove_chain. */
  method FreeFrom(fs: Volume, first: nat) returns (res: Result)
    requires fs.Valid() && fs.g.InRange(first)
    modifies fs`disk, fs`wflag, fs`winsect, fs`freeClst, fs`fsiDirty, fs.win
    ensures fs.Valid() && SameOutsideFats(fs.g, old(fs.Vol()), fs.Vol()) && fs.g.InFat1(fs.winsect)
    ensures fs.FatSeq() == Unlink(old(fs.FatSeq()), first)
    ensures res == if UnlinkOk(old(fs.FatSeq()), first) then Ok else IntErr
    ensures old(CountRight(fs.freeClst, fs.FatSeq())) ==> CountRight(fs.freeClst, fs.FatSeq())
    ensures old(fs.freeClst) > fs.g.nFatent - 2 ==> fs.freeClst == old(fs.freeClst)
  {
    hide Volume.Valid, Volume.Vol, Fat, CountRight;
    var clst: nat := first;
    ghost var fat0 := fs.FatSeq();
    while true
      invariant fs.Valid() && fs.g.InRange(clst) && SameOutsideFats(fs.g, old(fs.Vol()), fs.Vol())
      invariant Unlink(fs.FatSeq(), clst) == Unlink(fat0, first)
      invariant UnlinkOk(fs.FatSeq(), clst) == UnlinkOk(fat0, first)
      invariant old(CountRight(fs.freeClst, fs.FatSeq())) ==> CountRight(fs.freeClst, fs.FatSeq())
      invariant old(fs.freeClst) > fs.g.nFatent - 2 ==> fs.freeClst == old(fs.freeClst)
      decreases UsedSet(fs.FatSeq())
    {
      var nxt := fs.GetFat(clst);
      if nxt == 0 {
        return Ok;
      }
      if nxt == 1 {
        return IntErr;
      }
      FreeOne(fs.FatSeq(), clst);
      FreeCluster(fs, clst);
      if nxt >= fs.g.nFatent {
        return Ok;
      }
      clst := nxt;
    }
  }

  /** remove_chain: end the chain at pclst (0: nothing to end) and free what follows from clst. */
  method RemoveChain(fs: Volume, clst: nat, pclst: nat) returns (res: Result)
    requires fs.Valid()
    modifies fs`disk, fs`wflag, fs`winsect, fs`freeClst, fs`fsiDirty, fs.win
    ensures fs.Valid() && SameOutsideFats(fs.g, old(fs.Vol()), fs.Vol())
    ensures if fs.g.InRange(clst) && (pclst == 0 || fs.g.InRange(pclst)) then
        var fat := if pclst == 0 then old(fs.FatSeq()) else old(fs.FatSeq())[pclst := EndMark(fs.g.fsType)];
        && fs.FatSeq() == Unlink(fat, clst)
        && res == (if UnlinkOk(fat, clst) then Ok else IntErr)
        && fs.g.InFat1(fs.winsect)
      else
        res == IntErr && fs.Vol() == old(fs.Vol()) && fs.winsect == old(fs.winsect)
    ensures old(CountRight(fs.freeClst, fs.FatSeq())) && (fs.g.InRange(pclst) ==> old(fs.FatSeq())[pclst] != 0)
      ==> CountRight(fs.freeClst, fs.FatSeq())
    ensures old(fs.freeClst) > fs.g.nFatent - 2 ==> fs.freeClst == old(fs.freeClst)
  {
    hide Volume.Valid, Volume.Vol, Fat;
    if clst < 2 || clst >= fs.g.nFatent {
      return IntErr;
    }
    if pclst != 0 {
      EndMarkEnds(fs.g, 0);
      if fs.g.InRange(pclst) && fs.FatSeq()[pclst] != 0 {
        RelinkOne(fs.FatSeq(), pclst, EndMark(fs.g.fsType));
      }
      res := fs.PutFat(pclst, ALL_ONES);
      if res != Ok {
        return;
      }
    }
    res := FreeFrom(fs, clst);
  }

  /** No cluster in range is free. */
  ghost predicate Full(fat: seq<nat>) {
    forall c: nat :: 2 <= c < |fat| ==> fat[c] != 0
  }

  /** Clusters a wrap-around scan from scl meets before r. */
  predicate ScannedBefore(scl: nat, r: nat, c: nat) {
    if scl < r then scl < c < r else scl < c || c < r
  }

  /** The entry of some cluster has the error value. */
  ghost predicate Damaged(fat: seq<nat>) {
    exists c: nat :: 2 <= c < |fat| && fat[c] == 1
  }

  /** The j-th cluster a wrap-around scan from scl looks at, in a table of n entries. */
  function Visited(n: nat, scl: nat, j: nat): (c: nat)
    requires 1 <= scl < n && j < n - 2
    ensures 2 <= c < n
  {
    if scl + 1 + j < n then scl + 1 + j else scl + 1 + j - n + 2
  }

  /** When a scan looks at a cluster. */
  lemma VisitOf(n: nat, scl: nat, c: nat) returns (j: nat)
    requires 1 <= scl < n && 2 <= c < n
    ensures j < n - 2 && Visited(n, scl, j) == c
  {
    j := if c > scl then c - scl - 1 else n - scl - 3 + c;
  }

  /** What the scan answers from its j-th look on: a free cluster, 1 for an error value, 0 when it has seen all. */
  ghost function Scan(fat: seq<nat>, scl: nat, j: nat): (r: nat)
    requires 1 <= scl < |fat| && j <= |fat| - 2
    ensures r < |fat|
    decreases |fat| - j
  {
    if j == |fat| - 2 then 0
    else
      var c := Visited(|fat|, scl, j);
      if fat[c] < 2 then (if fat[c] == 0 then c else 1) else Scan(fat, scl, j + 1)
  }

  /** The look that decides a scan. */
  lemma {:induction false} ScanStops(fat: seq<nat>, scl: nat, j: nat) returns (k: nat)
    requires 1 <= scl < |fat| && j <= |fat| - 2
    ensures j <= k <= |fat| - 2 && forall i :: j <= i < k ==> fat[Visited(|fat|, scl, i)] >= 2
    ensures if k == |fat| - 2 then Scan(fat, scl, j) == 0
            else var c := Visited(|fat|, scl, k); fat[c] < 2 && Scan(fat, scl, j) == if fat[c] == 0 then c else 1
    decreases |fat| - j
  {
    k := j;
    if j < |fat| - 2 && fat[Visited(|fat|, scl, j)] >= 2 {
      k := ScanStops(fat, scl, j + 1);
    }
  }

  /** Cluster c decides a scan from scl: it is free or has the error value, and those looked at before are in use. */
  ghost predicate Decides(fat: seq<nat>, scl: nat, c: nat) {
    2 <= c < |fat| && fat[c] < 2 && forall d: nat :: 2 <= d < |fat| && ScannedBefore(scl, c, d) ==> fat[d] >= 2
  }

  /**
    The answer is the deciding cluster if it is free, 1 exactly when it has the
    error value, 0 exactly when there is none.
    */
  lemma ScanMeaning(fat: seq<nat>, scl: nat)
    requires 1 <= scl < |fat| && |fat| >= 3
    ensures var r := Scan(fat, scl, 0);
      && (r == 0 <==> forall c: nat :: 2 <= c < |fat| ==> fat[c] >= 2)
      && (r == 1 <==> exists c: nat :: Decides(fat, scl, c) && fat[c] == 1)
      && (r >= 2 ==> Decides(fat, scl, r) && fat[r] == 0)
  {
    var k := ScanStops(fat, scl, 0);
    forall c: nat | 2 <= c < |fat| && (k == |fat| - 2 || ScannedBefore(scl, Visited(|fat|, scl, k), c))
      ensures fat[c] >= 2
    {
      var _ := VisitOf(|fat|, scl, c);
    }
    if k < |fat| - 2 {
      assert Decides(fat, scl, Visited(|fat|, scl, k));
    }
  }

  /** The wrap-around scan of create_chain. */
  method ScanFree(fs: Volume, scl: nat) returns (ncl: nat)
    requires fs.Valid() && 1 <= scl < fs.g.nFatent
    modifies fs`disk, fs`wflag, fs`winsect, fs.win
    ensures fs.Valid() && fs.Vol() == old(fs.Vol()) && fs.g.InFat1(fs.winsect)
    ensures ncl == Scan(fs.FatSeq(), scl, 0)
    ensures fs.wflag ==> old(fs.wflag)
  {
    hide Volume.Valid, Volume.Vol, Fat;
    ghost var fat, n := fs.FatSeq(), fs.g.nFatent;
    ghost var j := 0;
    ncl := scl;
    while true
      invariant fs.Valid() && fs.Vol() == old(fs.Vol()) && fs.FatSeq() == fat && (fs.wflag ==> old(fs.wflag))
      invariant j <= n - 2 && Scan(fat, scl, j) == Scan(fat, scl, 0)
      invariant if j == 0 then ncl == scl else ncl == Visited(n, scl, j - 1) && fs.g.InFat1(fs.winsect)
      invariant j == n - 2 ==> scl == 1
      decreases n - j
    {
      ncl := ncl + 1;
      if ncl >= fs.g.nFatent {
        ncl := 2;
        if ncl > scl {
          return 0;
        }
      }
      assert ncl == Visited(n, scl, j);
      var cs := fs.GetFat(ncl);
      if cs == 0 {
        return;
      }
      if cs == 1 {
        return 1;
      }
      if ncl == scl {
        return 0;
      }
      j := j + 1;
    }
  }

  /** Whether create_chain has to look for a free cluster: a new chain, or the last cluster of one. */
  ghost predicate NeedsCluster(fat: seq<nat>, clst: nat) {
    clst == 0 || (2 <= clst < |fat| && fat[clst] >= |fat|)
  }

  /** The table after cluster r was marked as end and linked from clst (0: from nothing). */
  ghost function Linked(fat: seq<nat>, clst: nat, r: nat, mark: nat): (fat': seq<nat>)
    requires r < |fat| && clst < |fat|
    ensures |fat'| == |fat|
  {
    if clst == 0 then fat[r := mark] else fat[r := mark][clst := r]
  }

  lemma LinkedCount(fat: seq<nat>, clst: nat, r: nat, mark: nat)
    requires 2 <= r < |fat| && fat[r] == 0 && mark != 0
    requires clst == 0 || (2 <= clst < |fat| && fat[clst] != 0)
    ensures FreeCount(Linked(fat, clst, r, mark)) == FreeCount(fat) - 1
  {
    UseOne(fat, r, mark);
    if clst != 0 {
      RelinkOne(fat[r := mark], clst, r);
    }
  }

  /** Where create_chain starts to scan. */
  ghost function ScanStart(n: nat, clst: nat, hint: nat): (scl: nat)
    requires n >= 3 && clst < n
    ensures 1 <= scl < n
  {
    if clst == 0 then (if hint == 0 || hint >= n then 1 else hint) else if 2 <= hint < n then hint else clst
  }

  /** The cluster after clst, which is tried first. */
  function NextNumber(n: nat, clst: nat): nat {
    if clst + 1 >= n then 2 else clst + 1
  }

  /** What the search of create_chain answers: the neighbour of clst if it is free, else the scan's answer. */
  ghost function Search(fat: seq<nat>, clst: nat, hint: nat): (r: nat)
    requires |fat| >= 3 && clst < |fat|
    ensures r < |fat|
  {
    var next := NextNumber(|fat|, clst);
    if clst != 0 && fat[next] < 2 then (if fat[next] == 0 then next else 1)
    else Scan(fat, ScanStart(|fat|, clst, hint), 0)
  }

  /** Which free cluster is taken: the one after clst, else the next one round from the hint. */
  ghost predicate FirstChoice(fat: seq<nat>, clst: nat, hint: nat, r: nat)
    requires |fat| >= 3 && clst < |fat|
  {
    var next := NextNumber(|fat|, clst);
    || (clst != 0 && r == next)
    || ((clst != 0 ==> fat[next] != 0) &&
        forall c: nat :: 2 <= c < |fat| && ScannedBefore(ScanStart(|fat|, clst, hint), r, c) ==> fat[c] >= 2)
  }

  /** How many looks a scan from start over a table of n entries takes to come to cluster c. */
  function Looks(n: nat, start: nat, c: nat): int {
    if c > start then c - start else c - start + (n - 2)
  }

  /**
    The search in numbers: the cluster behind clst (2 behind the last one) decides
    if it is free or has the error value; if not, the first such cluster from the
    hint on, or from clst or the start of the table when the hint is out of range.
    */
  lemma SearchByNumbers(fat: seq<nat>, clst: nat, hint: nat, r: nat)
    requires |fat| >= 3 && clst < |fat| && clst != 1
    ensures var n := |fat|;
      var behind := if clst == n - 1 then 2 else clst + 1;
      var start := if 2 <= hint < n then hint else if clst == 0 then 1 else clst;
      if clst != 0 && fat[behind] < 2 then Search(fat, clst, hint) == if fat[behind] == 0 then behind else 1
      else
        && ((forall c: nat :: 2 <= c < n ==> fat[c] >= 2) ==> Search(fat, clst, hint) == 0)
        && (2 <= r < n && fat[r] < 2
            && (forall c: nat :: 2 <= c < n && Looks(n, start, c) < Looks(n, start, r) ==> fat[c] >= 2) ==>
              Search(fat, clst, hint) == if fat[r] == 0 then r else 1)
  {
    var start := ScanStart(|fat|, clst, hint);
    ScanMeaning(fat, start);
    if 2 <= r < |fat| && fat[r] < 2
       && (forall c: nat :: 2 <= c < |fat| && Looks(|fat|, start, c) < Looks(|fat|, start, r) ==> fat[c] >= 2) {
      hide Scan;
      forall c: nat | 2 <= c < |fat| && ScannedBefore(start, r, c)
        ensures fat[c] >= 2
      {
        assert Looks(|fat|, start, c) < Looks(|fat|, start, r);
      }
      assert Decides(fat, start, r);
      OneDecides(fat, start, r);
    }
  }

  lemma OneDecides(fat: seq<nat>, scl: nat, r: nat)
    requires Decides(fat, scl, r)
    ensures forall c: nat :: Decides(fat, scl, c) ==> c == r
  {
    forall c: nat | Decides(fat, scl, c)
      ensures c == r
    {
      assert ScannedBefore(scl, r, c) || ScannedBefore(scl, c, r) || c == r;
    }
  }

  /** 0 means that no cluster is free, 1 that the search met an error value, anything else is the first choice. */
  lemma SearchMeaning(fat: seq<nat>, clst: nat, hint: nat)
    requires |fat| >= 3 && clst < |fat|
    ensures var r := Search(fat, clst, hint);
      && (r == 0 ==> Full(fat)) && (r == 1 ==> Damaged(fat))
      && (r >= 2 ==> fat[r] == 0 && FirstChoice(fat, clst, hint, r))
  {
    hide Scan;
    ScanMeaning(fat, ScanStart(|fat|, clst, hint));
  }

  /** The search of create_chain: the neighbour of clst first, then a scan from the last allocated cluster. */
  method FindCluster(fs: Volume, clst: nat) returns (ncl: nat)
    requires fs.Valid() && NeedsCluster(fs.FatSeq(), clst)
    modifies fs`disk, fs`wflag, fs`winsect, fs.win
    ensures fs.Valid() && fs.Vol() == old(fs.Vol()) && fs.g.InFat1(fs.winsect)
    ensures ncl == Search(fs.FatSeq(), clst, fs.lastClst)
    ensures fs.wflag ==> old(fs.wflag)
  {
    hide Volume.Valid, Volume.Vol, Fat, Scan;
    var scl: nat := clst;
    if clst == 0 {
      scl := fs.lastClst;
      if scl == 0 || scl >= fs.g.nFatent {
        scl := 1;
      }
    } else {
      ncl := scl + 1;
      if ncl >= fs.g.nFatent {
        ncl := 2;
      }
      var cs := fs.GetFat(ncl);
      if cs == 1 {
        return 1;
      }
      if cs == 0 {
        return;
      }
      if fs.lastClst >= 2 && fs.lastClst < fs.g.nFatent {
        scl := fs.lastClst;
      }
    }
    ncl := ScanFree(fs, scl);
  }

  /** The answer of create_chain when it has to allocate: the cached count is believed when it is 0. */
  ghost function Choice(fat: seq<nat>, clst: nat, hint: nat, free: nat): (r: nat)
    requires |fat| >= 3 && clst < |fat|
    ensures r < |fat|
  {
    if free == 0 then 0 else Search(fat, clst, hint)
  }

  /** The cached free count after one allocation: counted down when it is known. */
  ghost function FreeAfter(n: nat, free: dword): dword
    requires n >= 3
  {
    if 0 < free <= n - 2 then free - 1 else free
  }

  /**
    create_chain: follow the chain from clst, or stretch it by a free cluster, or
    start a new one (clst == 0).  Gives the cluster, 0 when there is none free,
    1 on a damaged table.
    */
  method CreateChain(fs: Volume, clst: nat) returns (r: nat)
    requires fs.Valid()
    modifies fs`disk, fs`wflag, fs`winsect, fs`freeClst, fs`lastClst, fs`fsiDirty, fs.win
    ensures fs.Valid() && SameOutsideFats(fs.g, old(fs.Vol()), fs.Vol())
    ensures fs.g.InFat1(fs.winsect) || fs.winsect == old(fs.winsect)
    ensures !NeedsCluster(old(fs.FatSeq()), clst) ==>
      r == (if fs.g.InRange(clst) && old(fs.FatSeq())[clst] >= 2 then old(fs.FatSeq())[clst] else 1)
    ensures NeedsCluster(old(fs.FatSeq()), clst) ==>
      r == Choice(old(fs.FatSeq()), clst, old(fs.lastClst), old(fs.freeClst))
    ensures NeedsCluster(old(fs.FatSeq()), clst) && r == 0 ==> old(fs.freeClst) == 0 || Full(old(fs.FatSeq()))
    ensures NeedsCluster(old(fs.FatSeq()), clst) && r == 1 ==> Damaged(old(fs.FatSeq()))
    ensures if NeedsCluster(old(fs.FatSeq()), clst) && r >= 2 then
        && old(fs.FatSeq())[r] == 0
        && FirstChoice(old(fs.FatSeq()), clst, old(fs.lastClst), r)
        && fs.FatSeq() == Linked(old(fs.FatSeq()), clst, r, EndMark(fs.g.fsType))
        && fs.lastClst == r && fs.freeClst == FreeAfter(fs.g.nFatent, old(fs.freeClst)) && fs.g.InFat1(fs.winsect)
      else
        && fs.Vol() == old(fs.Vol()) && fs.freeClst == old(fs.freeClst) && fs.lastClst == old(fs.lastClst)
        && fs.fsiDirty == old(fs.fsiDirty) && (fs.wflag ==> old(fs.wflag))
    ensures old(CountRight(fs.freeClst, fs.FatSeq())) ==> CountRight(fs.freeClst, fs.FatSeq())
    ensures old(fs.freeClst) > fs.g.nFatent - 2 ==> fs.freeClst == old(fs.freeClst)
  {
    hide Volume.Valid, Volume.Vol, Fat, Full, FirstChoice, FreeCount, Search, Damaged;
    ghost var fat := fs.FatSeq();
    if clst != 0 {
      var cs := fs.GetFat(clst);
      if cs < 2 {
        return 1;
      }
      if cs < fs.g.nFatent {
        return cs;
      }
    }
    if fs.freeClst == 0 {
      return 0;
    }
    r := FindCluster(fs, clst);
    SearchMeaning(fat, clst, fs.lastClst);
    if r < 2 {
      return;
    }
    EndMarkEnds(fs.g, r);
    LinkedCount(fat, clst, r, EndMark(fs.g.fsType));
    var _ := fs.PutFat(r, ALL_ONES);
    if clst != 0 {
      var _ := fs.PutFat(clst, r);
    }
    fs.lastClst := r;
    if fs.freeClst <= fs.g.nFatent - 2 {
      fs.freeClst := fs.freeClst - 1;
    }
    fs.fsiDirty := true;
  }

  // ---- growing a chain to a number of clusters

  datatype GrowEnd = Reached | NoRoom | BadEntry

  /** Table, chain and hints after asking create_chain again and again. */
  datatype Growth = Growth(end: GrowEnd, fat: seq<nat>, ch: seq<nat>, last: nat, free: dword)

  ghost function LastOf(ch: seq<nat>): nat {
    if ch == [] then 0 else ch[|ch| - 1]
  }

  /** What growing a chain to target clusters comes to, one create_chain after the other. */
  ghost function GrowTo(mark: nat, fat: seq<nat>, ch: seq<nat>, last: nat, free: dword, target: nat): Growth
    requires |fat| >= 3 && LastOf(ch) < |fat|
    decreases target - |ch|
  {
    if |ch| >= target then Growth(Reached, fat, ch, last, free)
    else
      var r := Choice(fat, LastOf(ch), last, free);
      if r == 0 then Growth(NoRoom, fat, ch, last, free)
      else if r == 1 then Growth(BadEntry, fat, ch, last, free)
      else GrowTo(mark, Linked(fat, LastOf(ch), r, mark), ch + [r], r, FreeAfter(|fat|, free), target)
  }

  lemma GrowNone(mark: nat, fat: seq<nat>, ch: seq<nat>, last: nat, free: dword, target: nat)
    requires |fat| >= 3 && LastOf(ch) < |fat| && target <= |ch|
    ensures GrowTo(mark, fat, ch, last, free, target) == Growth(Reached, fat, ch, last, free)
  {
  }

  lemma GrowOne(mark: nat, fat: seq<nat>, ch: seq<nat>, last: nat, free: dword, r: nat)
    requires |fat| >= 3 && LastOf(ch) < |fat| && r == Choice(fat, LastOf(ch), last, free)
    ensures GrowTo(mark, fat, ch, last, free, |ch| + 1) ==
      if r == 0 then Growth(NoRoom, fat, ch, last, free)
      else if r == 1 then Growth(BadEntry, fat, ch, last, free)
      else Growth(Reached, Linked(fat, LastOf(ch), r, mark), ch + [r], r, FreeAfter(|fat|, free))
  {
  }

  /** Growing in two parts is growing at once, unless the first part fails already. */
  lemma {:induction false} GrowSplit(mark: nat, fat: seq<nat>, ch: seq<nat>, last: nat, free: dword, t1: nat, t2: nat)
    requires |fat| >= 3 && LastOf(ch) < |fat| && t1 <= t2
    ensures var g := GrowTo(mark, fat, ch, last, free, t1);
      |g.fat| == |fat| && LastOf(g.ch) < |fat| &&
      GrowTo(mark, fat, ch, last, free, t2) ==
        if g.end == Reached then GrowTo(mark, g.fat, g.ch, g.last, g.free, t2) else g
    decreases t1 - |ch|
  {
    if |ch| < t1 {
      var r := Choice(fat, LastOf(ch), last, free);
      if r >= 2 {
        GrowSplit(mark, Linked(fat, LastOf(ch), r, mark), ch + [r], r, FreeAfter(|fat|, free), t1, t2);
      }
    }
  }

  /** Growing never creates error values: when it meets one, the table had one from the start. */
  lemma {:induction false} GrowMeets(mark: nat, fat: seq<nat>, ch: seq<nat>, last: nat, free: dword, target: nat)
    requires |fat| >= 3 && LastOf(ch) < |fat| && mark >= |fat|
    ensures GrowTo(mark, fat, ch, last, free, target).end == BadEntry ==> Damaged(fat)
    decreases target - |ch|
  {
    if |ch| < target {
      var c := LastOf(ch);
      var r := Choice(fat, c, last, free);
      SearchMeaning(fat, c, last);
      if r >= 2 {
        var fat' := Linked(fat, c, r, mark);
        GrowMeets(mark, fat', ch + [r], r, FreeAfter(|fat|, free), target);
        if Damaged(fat') {
          var x :| 2 <= x < |fat'| && fat'[x] == 1;
          assert fat[x] == 1;
        }
      }
    }
  }

  /** Growing that ran out of room cannot be continued. */
  lemma {:induction false} GrowStops(mark: nat, fat: seq<nat>, ch: seq<nat>, last: nat, free: dword, target: nat)
    requires |fat| >= 3 && LastOf(ch) < |fat|
    ensures var g := GrowTo(mark, fat, ch, last, free, target);
      g.end == NoRoom ==> |g.fat| == |fat| && LastOf(g.ch) < |fat| && Choice(g.fat, LastOf(g.ch), g.last, g.free) == 0
    decreases target - |ch|
  {
    if |ch| < target {
      var r := Choice(fat, LastOf(ch), last, free);
      if r >= 2 {
        GrowStops(mark, Linked(fat, LastOf(ch), r, mark), ch + [r], r, FreeAfter(|fat|, free), target);
      }
    }
  }

  lemma UndamagedStays(fat: seq<nat>, clst: nat, r: nat, mark: nat)
    requires 2 <= r < |fat| && clst < |fat| && mark >= |fat| >= 3 && !Damaged(fat)
    ensures !Damaged(Linked(fat, clst, r, mark))
  {
  }

  /**
    On a table without error values and with a right count, growing takes as many
    clusters as are free, and no more.
    */
  lemma {:induction false} GrowFits(mark: nat, fat: seq<nat>, ch: seq<nat>, last: nat, free: dword, target: nat)
    requires |fat| >= 3 && Holds(fat, ch) && mark >= |fat| && !Damaged(fat) && CountRight(free, fat)
    ensures LastOf(ch) < |fat|
    ensures var g := GrowTo(mark, fat, ch, last, free, target);
      && g.end == (if target <= |ch| + FreeCount(fat) then Reached else NoRoom)
      && |g.ch| == (if target <= |ch| then |ch| else if g.end == Reached then target else |ch| + FreeCount(fat))
      && |g.ch| + FreeCount(g.fat) == |ch| + FreeCount(fat) && !Damaged(g.fat) && CountRight(g.free, g.fat)
    decreases target - |ch|
  {
    hide FreeCount, Search, Damaged, IsChain;
    LastInChain(fat, ch);
    if |ch| < target {
      var c := LastOf(ch);
      var r := Choice(fat, c, last, free);
      SearchMeaning(fat, c, last);
      FullCount(fat);
      if r >= 2 {
        FreeIsCluster(fat, r);
        LinkedCount(fat, c, r, mark);
        UndamagedStays(fat, c, r, mark);
        ExtendByOne(fat, ch, r, mark);
        GrowFits(mark, Linked(fat, c, r, mark), ch + [r], r, FreeAfter(|fat|, free), target);
      }
    }
  }

  lemma LastInChain(fat: seq<nat>, ch: seq<nat>)
    requires Holds(fat, ch)
    ensures LastOf(ch) < |fat| || fat == []
    ensures ch != [] ==> 2 <= LastOf(ch) < |fat| && fat[LastOf(ch)] != 0
  {
  }

  lemma FreeIsCluster(fat: seq<nat>, r: nat)
    requires 2 <= r < |fat| && fat[r] == 0
    ensures FreeCount(fat) > 0
  {
    assert r in FreeSet(fat);
  }

  lemma FullCount(fat: seq<nat>)
    requires |fat| >= 2
    ensures Full(fat) <==> FreeCount(fat) == 0
    ensures FreeCount(fat) <= |fat| - 2
  {
    FreeCountBound(fat);
    if !Full(fat) {
      var c: nat :| 2 <= c < |fat| && fat[c] == 0;
      FreeIsCluster(fat, c);
    }
  }

  // ---- counting free clusters

  /** Zero entries among the first k. */
  ghost function Zeros(fat: seq<nat>, k: nat): nat
    requires k <= |fat|
  {
    if k == 0 then 0 else Zeros(fat, k - 1) + (if fat[k - 1] == 0 then 1 else 0)
  }

  /** Counting every entry counts the free clusters and the two entries that are not clusters. */
  lemma {:induction false} ZerosAreFree(fat: seq<nat>, k: nat)
    requires 2 <= k <= |fat|
    ensures Zeros(fat, k) == Zeros(fat, 2) + FreeCount(fat[..k])
  {
    if k == 2 {
      assert FreeSet(fat[..2]) == {};
    } else {
      ZerosAreFree(fat, k - 1);
      var a, b := FreeSet(fat[..k - 1]), FreeSet(fat[..k]);
      if fat[k - 1] == 0 {
        assert b == a + {k - 1};
      } else {
        assert b == a;
      }
    }
  }

  /** f_getfree on a FAT12 volume: one get_fat per cluster. */
  method CountEntries(fs: Volume) returns (res: Result, nfree: nat)
    requires fs.Valid()
    modifies fs`disk, fs`wflag, fs`winsect, fs.win
    ensures fs.Valid() && fs.Vol() == old(fs.Vol())
    ensures res == if exists c: nat :: fs.g.InRange(c) && fs.FatSeq()[c] == 1 then IntErr else Ok
    ensures res == Ok ==> nfree == FreeCount(fs.FatSeq())
  {
    hide Volume.Valid, Volume.Vol, Fat, FreeCount;
    ghost var fat := fs.FatSeq();
    nfree := 0;
    var clst: nat := 2;
    while clst < fs.g.nFatent
      invariant fs.Valid() && fs.Vol() == old(fs.Vol()) && fs.FatSeq() == fat
      invariant 2 <= clst <= fs.g.nFatent
      invariant forall c: nat :: 2 <= c < clst ==> fat[c] != 1
      invariant nfree + Zeros(fat, 2) == Zeros(fat, clst)
    {
      var stat := fs.GetFat(clst);
      if stat == 1 {
        return IntErr, nfree;
      }
      if stat == 0 {
        nfree := nfree + 1;
      }
      clst := clst + 1;
    }
    ZerosAreFree(fat, clst);
    assert fat[..clst] == fat;
    return Ok, nfree;
  }

  lemma NextHalf(c: nat)
    ensures (c + 1) / 256 == c / 256 + (if (c + 1) * 2 % SECTOR_SIZE == 0 then 1 else 0)
    ensures (c + 1) * 2 % SECTOR_SIZE == (c * 2 % SECTOR_SIZE + 2) % SECTOR_SIZE
  {
    var q, r := c / 256, c % 256;
    assert c == q * 256 + r && c * 2 % SECTOR_SIZE == r * 2;
    if r == 255 {
      assert c + 1 == (q + 1) * 256;
      assert (c + 1) / 256 == q + 1 && (c + 1) * 2 % SECTOR_SIZE == 0;
    } else {
      assert c + 1 == q * 256 + (r + 1);
      assert (c + 1) / 256 == q && (c + 1) * 2 % SECTOR_SIZE == (r + 1) * 2;
    }
  }

  lemma NextQuarter(c: nat)
    ensures (c + 1) / 128 == c / 128 + (if (c + 1) * 4 % SECTOR_SIZE == 0 then 1 else 0)
    ensures (c + 1) * 4 % SECTOR_SIZE == (c * 4 % SECTOR_SIZE + 4) % SECTOR_SIZE
  {
    var q, r := c / 128, c % 128;
    assert c == q * 128 + r && c * 4 % SECTOR_SIZE == r * 4;
    if r == 127 {
      assert c + 1 == (q + 1) * 128;
      assert (c + 1) / 128 == q + 1 && (c + 1) * 4 % SECTOR_SIZE == 0;
    } else {
      assert c + 1 == q * 128 + (r + 1);
      assert (c + 1) / 128 == q && (c + 1) * 4 % SECTOR_SIZE == (r + 1) * 4;
    }
  }

  /** Offsets advance by the entry width and wrap to the next sector together with the entry. */
  lemma NextEntryPlace(t: FatType, g: Geo, c: nat)
    requires !t.FAT12? && t == g.fsType
    ensures EntryStart(t, c + 1) == (EntryStart(t, c) + Width(t)) % SECTOR_SIZE
    ensures EntrySector(g, c + 1) == EntrySector(g, c) + (if EntryStart(t, c + 1) == 0 then 1 else 0)
  {
    if t.FAT16? {
      NextHalf(c);
    } else {
      NextQuarter(c);
    }
  }

  lemma FirstEntryPlace(g: Geo)
    ensures EntryStart(g.fsType, 0) == 0 && EntrySector(g, 0) == g.fatbase
  {
  }

  /** f_getfree on wider tables: the sectors of the table are read as arrays of words, entries 0 and 1 included. */
  method CountSectors(fs: Volume) returns (nfree: nat)
    requires fs.Valid() && !fs.g.fsType.FAT12?
    modifies fs`disk, fs`wflag, fs`winsect, fs.win
    ensures fs.Valid() && fs.Vol() == old(fs.Vol())
    ensures nfree == Zeros(fs.FatSeq(), fs.g.nFatent)
  {
    hide Volume.Valid, Volume.Vol, Entry, LdWord, LdDword, EntryStart, EntrySector;
    assert EntryStart(fs.g.fsType, 0) == 0 && EntrySector(fs.g, 0) == fs.g.fatbase by {
      FirstEntryPlace(fs.g);
    }
    ghost var fat, vol := fs.FatSeq(), fs.Vol();
    var clst: nat, sect: nat, i: nat := fs.g.nFatent, fs.g.fatbase, 0;
    nfree := 0;
    while clst > 0
      invariant fs.Valid() && fs.Vol() == vol && clst <= fs.g.nFatent
      invariant nfree == Zeros(fat, fs.g.nFatent - clst)
      invariant clst > 0 ==> i == EntryStart(fs.g.fsType, fs.g.nFatent - clst)
      invariant clst > 0 ==> sect == EntrySector(fs.g, fs.g.nFatent - clst) + (if i == 0 then 0 else 1)
      invariant clst > 0 && i != 0 ==> 0 < sect <= fs.g.devSize && fs.win[..] == vol[sect - 1]
    {
      ghost var k := fs.g.nFatent - clst;
      if k + 1 < fs.g.nFatent {
        EntryFromSector(fs.g, vol, k + 1);
      }
      EntryFromSector(fs.g, vol, k);
      if i == 0 {
        fs.MoveWindow(sect);
        sect := sect + 1;
      }
      if fs.g.fsType.FAT16? {
        if LdWord(fs.win[..], i) == 0 {
          nfree := nfree + 1;
        }
        i := i + 2;
      } else {
        if LdDword(fs.win[..], i) % 0x1000_0000 == 0 {
          nfree := nfree + 1;
        }
        i := i + 4;
      }
      i := i % SECTOR_SIZE;
      clst := clst - 1;
      NextEntryPlace(fs.g.fsType, fs.g, k);
    }
  }

  /** f_getfree after the volume is mounted. */
  method GetFree(fs: Volume) returns (res: Result, nclst: nat)
    requires fs.Valid()
    modifies fs`disk, fs`wflag, fs`winsect, fs`freeClst, fs`fsiDirty, fs.win
    ensures fs.Valid() && fs.Vol() == old(fs.Vol())
    ensures res == Ok ==> nclst == fs.freeClst
    ensures res != Ok ==> fs.freeClst == old(fs.freeClst)
    ensures old(fs.freeClst) <= fs.g.nFatent - 2 ==> res == Ok && fs.freeClst == old(fs.freeClst)
    ensures old(fs.freeClst) > fs.g.nFatent - 2 && res == Ok ==>
      nclst == FreeCount(fs.FatSeq()) + (if fs.g.fsType.FAT12? then 0 else Zeros(fs.FatSeq(), 2))
    ensures old(fs.freeClst) > fs.g.nFatent - 2 ==>
      (res == Ok <==> !(fs.g.fsType.FAT12? && exists c: nat :: fs.g.InRange(c) && fs.FatSeq()[c] == 1))
  {
    hide Volume.Valid, Volume.Vol, Fat, FreeCount;
    if fs.freeClst <= fs.g.nFatent - 2 {
      return Ok, fs.freeClst;
    }
    ghost var fat := fs.FatSeq();
    var nfree;
    if fs.g.fsType.FAT12? {
      res, nfree := CountEntries(fs);
    } else {
      res := Ok;
      nfree := CountSectors(fs);
      ZerosAreFree(fat, |fat|);
      assert fat[..|fat|] == fat;
    }
    nclst := nfree;
    if res == Ok {
      CountFits(fat);
      fs.freeClst := nfree;
      fs.fsiDirty := true;
    }
  }

  lemma CountFits(fat: seq<nat>)
    requires |fat| >= 2
    ensures FreeCount(fat) <= |fat| - 2
    ensures Zeros(fat, 2) <= 2
  {
    FreeCountBound(fat);
    assert Zeros(fat, 1) <= 1;
  }

  /** The streaming count is the number of free clusters exactly when entries 0 and 1 are not both-or-either zero. */
  lemma StreamedCountRight(fat: seq<nat>)
    requires |fat| >= 2
    ensures Zeros(fat, |fat|) == FreeCount(fat) <==> fat[0] != 0 && fat[1] != 0
  {
    ZerosAreFree(fat, |fat|);
    assert fat[..|fat|] == fat;
    assert Zeros(fat, 1) == if fat[0] == 0 then 1 else 0;
  }
}
