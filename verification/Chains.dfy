/**
  Cluster chains in a table of links, and who owns which cluster.  The table is
  the sequence of entry values: 0 is free, a value in range links to the next
  cluster, a value past the end of the table ends a chain.
  */
module Chains {
  /** The chain ch: clusters in range, no cluster twice, linked one to the next, ended by an end mark. */
  ghost predicate IsChain(fat: seq<nat>, ch: seq<nat>) {
    && ch != []
    && (forall i :: 0 <= i < |ch| ==> 2 <= ch[i] < |fat|)
    && Distinct(ch)
    && (forall i :: 0 <= i < |ch| - 1 ==> Link(fat, ch, i))
    && fat[ch[|ch| - 1]] >= |fat|
  }

  ghost predicate Link(fat: seq<nat>, ch: seq<nat>, i: nat)
    requires i < |ch| - 1 && ch[i] < |fat|
  {
    fat[ch[i]] == ch[i + 1]
  }

  ghost predicate Distinct(ch: seq<nat>) {
    forall i, j :: 0 <= i < j < |ch| ==> ch[i] != ch[j]
  }

  /** The chain of an object; an object without data has none. */
  ghost predicate Holds(fat: seq<nat>, ch: seq<nat>) {
    ch == [] || IsChain(fat, ch)
  }

  lemma LinkNotFree(fat: seq<nat>, ch: seq<nat>, c: nat)
    requires IsChain(fat, ch) && c in ch
    ensures 2 <= c < |fat| && fat[c] >= 2
  {
    var i :| 0 <= i < |ch| && ch[i] == c;
    if i < |ch| - 1 {
      assert Link(fat, ch, i);
    }
  }

  /** What the entry of a cluster of a chain says. */
  lemma ChainEntry(fat: seq<nat>, ch: seq<nat>, j: nat)
    requires IsChain(fat, ch) && j < |ch|
    ensures 2 <= ch[j] < |fat|
    ensures j + 1 < |ch| ==> fat[ch[j]] == ch[j + 1] && 2 <= ch[j + 1] < |fat|
    ensures j + 1 == |ch| ==> fat[ch[j]] >= |fat|
  {
    if j + 1 < |ch| {
      assert Link(fat, ch, j);
    }
  }

  lemma ChainStart(fat: seq<nat>, ch: seq<nat>)
    requires Holds(fat, ch)
    ensures ch != [] ==> ch[0] >= 2
  {
  }

  /** A chain depends only on the entries of its own clusters. */
  lemma ChainFrame(fat: seq<nat>, ch: seq<nat>, fat': seq<nat>)
    requires Holds(fat, ch) && |fat'| == |fat|
    requires forall c :: c in ch && c < |fat| ==> fat'[c] == fat[c]
    ensures Holds(fat', ch)
  {
    if ch != [] {
      assert forall i :: 0 <= i < |ch| ==> ch[i] in ch;
      forall i | 0 <= i < |ch| - 1
        ensures Link(fat', ch, i)
      {
        assert Link(fat, ch, i);
      }
    }
  }

  // ---- free clusters

  ghost function FreeSet(fat: seq<nat>): set<nat> {
    set c: nat | 2 <= c < |fat| && fat[c] == 0
  }

  ghost function FreeCount(fat: seq<nat>): nat {
    |FreeSet(fat)|
  }

  ghost function UsedSet(fat: seq<nat>): set<nat> {
    set c: nat | 2 <= c < |fat| && fat[c] != 0
  }

  lemma FreeOne(fat: seq<nat>, c: nat)
    requires 2 <= c < |fat| && fat[c] != 0
    ensures FreeCount(fat[c := 0]) == FreeCount(fat) + 1
    ensures UsedSet(fat[c := 0]) < UsedSet(fat)
  {
    assert FreeSet(fat[c := 0]) == FreeSet(fat) + {c};
    assert UsedSet(fat[c := 0]) == UsedSet(fat) - {c};
    assert c in UsedSet(fat);
  }

  lemma UseOne(fat: seq<nat>, c: nat, v: nat)
    requires 2 <= c < |fat| && fat[c] == 0 && v != 0
    ensures FreeCount(fat[c := v]) == FreeCount(fat) - 1
  {
    assert FreeSet(fat[c := v]) == FreeSet(fat) - {c};
    assert c in FreeSet(fat);
  }

  lemma RelinkOne(fat: seq<nat>, c: nat, v: nat)
    requires 2 <= c < |fat| && fat[c] != 0 && v != 0
    ensures FreeCount(fat[c := v]) == FreeCount(fat)
  {
    assert FreeSet(fat[c := v]) == FreeSet(fat);
  }

  /** The cluster numbers 2 to n + 1. */
  ghost function ClusterSet(n: nat): (s: set<nat>)
    ensures |s| == n
    ensures forall c: nat :: c in s <==> 2 <= c < n + 2
  {
    if n == 0 then {} else ClusterSet(n - 1) + {n + 1}
  }

  /** Every cluster is free or used. */
  lemma FreeCountBound(fat: seq<nat>)
    requires |fat| >= 2
    ensures FreeCount(fat) + |UsedSet(fat)| == |fat| - 2
  {
    assert ClusterSet(|fat| - 2) == FreeSet(fat) + UsedSet(fat);
  }

  // ---- following and freeing a chain

  /** The table after freeing cluster by cluster from c until a free entry, an error or an end mark. */
  ghost function Unlink(fat: seq<nat>, c: nat): (fat': seq<nat>)
    ensures |fat'| == |fat|
    decreases UsedSet(fat)
  {
    if 2 <= c < |fat| && fat[c] >= 2 then
      FreeOne(fat, c);
      Unlink(fat[c := 0], fat[c])
    else fat
  }

  /** Whether that walk ends without meeting the error value 1. */
  ghost predicate UnlinkOk(fat: seq<nat>, c: nat)
    decreases UsedSet(fat)
  {
    if 2 <= c < |fat| && fat[c] >= 2 then
      FreeOne(fat, c);
      UnlinkOk(fat[c := 0], fat[c])
    else 2 <= c < |fat| ==> fat[c] != 1
  }

  /** Rounds the walk takes. */
  ghost function UnlinkRounds(fat: seq<nat>, c: nat): nat
    decreases UsedSet(fat)
  {
    if 2 <= c < |fat| && fat[c] >= 2 then
      FreeOne(fat, c);
      1 + UnlinkRounds(fat[c := 0], fat[c])
    else 0
  }

  /** On any table, cyclic or cross-linked, the walk frees one more cluster each round: at most n - 2 rounds. */
  lemma {:induction false} UnlinkBounded(fat: seq<nat>, c: nat)
    requires |fat| >= 2
    ensures FreeCount(Unlink(fat, c)) == FreeCount(fat) + UnlinkRounds(fat, c)
    ensures UnlinkRounds(fat, c) <= |fat| - 2
    decreases UsedSet(fat)
  {
    if 2 <= c < |fat| && fat[c] >= 2 {
      FreeOne(fat, c);
      UnlinkBounded(fat[c := 0], fat[c]);
    }
    FreeCountBound(Unlink(fat, c));
  }

  /** The table with the clusters of s freed. */
  ghost function Freed(fat: seq<nat>, s: seq<nat>): (fat': seq<nat>)
    ensures |fat'| == |fat|
  {
    seq(|fat|, c requires 0 <= c < |fat| => if c in s then 0 else fat[c])
  }

  /** On a chain the walk frees exactly the clusters of the chain. */
  lemma {:induction false} UnlinkChain(fat: seq<nat>, ch: seq<nat>)
    requires IsChain(fat, ch)
    ensures Unlink(fat, ch[0]) == Freed(fat, ch) && UnlinkOk(fat, ch[0])
    ensures UnlinkRounds(fat, ch[0]) == |ch|
    decreases |ch|
  {
    var c := ch[0];
    LinkNotFree(fat, ch, c);
    FreeOne(fat, c);
    if |ch| > 1 {
      assert Link(fat, ch, 0);
      TailChain(fat, ch);
      UnlinkChain(fat[c := 0], ch[1..]);
      assert forall x :: x in ch <==> x == c || x in ch[1..];
    }
  }

  lemma TailChain(fat: seq<nat>, ch: seq<nat>)
    requires IsChain(fat, ch) && |ch| > 1
    ensures IsChain(fat[ch[0] := 0], ch[1..])
  {
    var fat', t := fat[ch[0] := 0], ch[1..];
    forall i | 0 <= i < |t| - 1
      ensures Link(fat', t, i)
    {
      assert Link(fat, ch, i + 1);
    }
  }

  // ---- growing and cutting a chain

  /** fat' and ch' result from appending free clusters to the chain ch. */
  ghost predicate Extended(fat: seq<nat>, ch: seq<nat>, fat': seq<nat>, ch': seq<nat>) {
    && |fat'| == |fat|
    && Holds(fat', ch')
    && ch <= ch'
    && (forall i :: |ch| <= i < |ch'| && ch'[i] < |fat| ==> fat[ch'[i]] == 0)
    && (forall c: nat :: c < |fat| && c !in ch' ==> fat'[c] == fat[c])
    && (ch' == ch ==> fat' == fat)
  }

  /** fat' results from keeping the first m clusters of the chain ch and freeing the others. */
  ghost predicate Cut(fat: seq<nat>, ch: seq<nat>, m: nat, fat': seq<nat>) {
    && |fat'| == |fat| && m <= |ch|
    && Holds(fat', ch[..m])
    && (forall i :: m <= i < |ch| && ch[i] < |fat| ==> fat'[ch[i]] == 0)
    && (forall c: nat :: c < |fat| && c !in ch ==> fat'[c] == fat[c])
    && (m == |ch| ==> fat' == fat)
  }

  lemma ExtendByOne(fat: seq<nat>, ch: seq<nat>, r: nat, mark: nat)
    requires Holds(fat, ch) && 2 <= r < |fat| && fat[r] == 0 && mark >= |fat|
    ensures var fat1 := fat[r := mark];
      Extended(fat, ch, if ch == [] then fat1 else fat1[ch[|ch| - 1] := r], ch + [r])
  {
    var ch' := ch + [r];
    if ch != [] {
      if r in ch {
        LinkNotFree(fat, ch, r);
      }
      var fat' := fat[r := mark][ch[|ch| - 1] := r];
      forall i {:trigger ch'[i + 1]} | 0 <= i < |ch'| - 1
        ensures fat'[ch'[i]] == ch'[i + 1]
      {
        if i < |ch| - 1 {
          assert Link(fat, ch, i);
        }
      }
    }
  }

  lemma ExtendedRefl(fat: seq<nat>, ch: seq<nat>)
    requires Holds(fat, ch)
    ensures Extended(fat, ch, fat, ch)
  {
  }

  lemma ExtendedPrefix(fat: seq<nat>, ch: seq<nat>, fat': seq<nat>, ch': seq<nat>)
    requires Extended(fat, ch, fat', ch')
    ensures ch <= ch'
  {
  }

  lemma ExtendedTrans(fat: seq<nat>, ch: seq<nat>, fat1: seq<nat>, ch1: seq<nat>, fat2: seq<nat>, ch2: seq<nat>)
    requires Holds(fat, ch)
    requires Extended(fat, ch, fat1, ch1) && Extended(fat1, ch1, fat2, ch2)
    ensures Extended(fat, ch, fat2, ch2)
  {
    forall i | |ch| <= i < |ch2| && ch2[i] < |fat|
      ensures fat[ch2[i]] == 0
    {
      if i < |ch1| {
        assert ch2[i] == ch1[i];
      } else {
        assert fat1[ch2[i]] == 0;
        if ch2[i] in ch1 {
          LinkNotFree(fat1, ch1, ch2[i]);
        }
      }
    }
    forall c: nat | c < |fat| && c !in ch2
      ensures fat2[c] == fat[c]
    {
      assert c !in ch1;
    }
    if ch2 == ch {
      assert ch1 == ch;
    }
  }

  lemma CutAt(fat: seq<nat>, ch: seq<nat>, m: nat, mark: nat)
    requires IsChain(fat, ch) && 0 < m < |ch| && mark >= |fat|
    ensures IsChain(fat[ch[m - 1] := mark], ch[m..])
    ensures Cut(fat, ch, m, Freed(fat[ch[m - 1] := mark], ch[m..]))
  {
    var fat1, t, h := fat[ch[m - 1] := mark], ch[m..], ch[..m];
    forall i | 0 <= i < |t| - 1
      ensures Link(fat1, t, i)
    {
      assert Link(fat, ch, m + i);
    }
    var fat' := Freed(fat1, t);
    forall i | 0 <= i < |h|
      ensures h[i] !in t
    {
    }
    forall i | 0 <= i < |h| - 1
      ensures Link(fat', h, i)
    {
      assert Link(fat, ch, i);
    }
  }

  lemma CutAll(fat: seq<nat>, ch: seq<nat>)
    requires IsChain(fat, ch)
    ensures Cut(fat, ch, 0, Freed(fat, ch))
  {
  }

  lemma CutNothing(fat: seq<nat>, ch: seq<nat>)
    requires Holds(fat, ch)
    ensures Cut(fat, ch, |ch|, fat)
  {
    assert ch[..|ch|] == ch;
  }

  // ---- counting

  ghost function LinksOf(ch: seq<nat>): set<nat> {
    set c | c in ch
  }

  /** Different clusters are counted one by one. */
  lemma {:induction false} LinksCount(ch: seq<nat>)
    requires Distinct(ch)
    ensures |LinksOf(ch)| == |ch|
  {
    if ch == [] {
      assert LinksOf(ch) == {};
    } else {
      var t := ch[..|ch| - 1];
      LinksCount(t);
      assert ch == t + [ch[|ch| - 1]];
      assert LinksOf(ch) == LinksOf(t) + {ch[|ch| - 1]};
    }
  }

  /** Links that are free clusters of one table only. */
  lemma CountsApart(fat: seq<nat>, fat': seq<nat>, s: seq<nat>)
    requires Distinct(s) && forall c: nat :: c in FreeSet(fat) <==> c in FreeSet(fat') || c in s
    requires forall c: nat :: c in s ==> c !in FreeSet(fat')
    ensures FreeCount(fat) == FreeCount(fat') + |s|
  {
    hide FreeSet;
    LinksCount(s);
    assert FreeSet(fat) == FreeSet(fat') + LinksOf(s);
    assert FreeSet(fat') !! LinksOf(s);
  }

  /** A chain and the free clusters are as many after growing it as before, */
  lemma ExtendedCount(fat: seq<nat>, ch: seq<nat>, fat': seq<nat>, ch': seq<nat>)
    requires Holds(fat, ch) && Extended(fat, ch, fat', ch')
    ensures |ch'| + FreeCount(fat') == |ch| + FreeCount(fat)
  {
    var more := ch'[|ch|..];
    TailDistinct(fat', ch', |ch|);
    hide IsChain, FreeCount;
    assert ch' == ch + more;
    forall c: nat
      ensures c in FreeSet(fat) <==> c in FreeSet(fat') || c in more
      ensures c in more ==> c !in FreeSet(fat')
    {
      EntryAfter(fat, ch, fat', ch', more, c);
    }
    CountsApart(fat, fat', more);
  }

  lemma EntryAfter(fat: seq<nat>, ch: seq<nat>, fat': seq<nat>, ch': seq<nat>, more: seq<nat>, c: nat)
    requires Holds(fat, ch) && Extended(fat, ch, fat', ch') && ch' == ch + more
    ensures c in FreeSet(fat) <==> c in FreeSet(fat') || c in more
    ensures c in more ==> c !in FreeSet(fat')
  {
    hide IsChain;
    if c in ch' {
      LinkNotFree(fat', ch', c);
    }
    if c in ch {
      LinkNotFree(fat, ch, c);
    }
    if c in more {
      var i :| 0 <= i < |more| && more[i] == c;
      assert ch'[|ch| + i] == c;
    }
  }

  /** and after cutting it. */
  lemma CutCount(fat: seq<nat>, ch: seq<nat>, m: nat, fat': seq<nat>)
    requires Holds(fat, ch) && Cut(fat, ch, m, fat')
    ensures m + FreeCount(fat') == |ch| + FreeCount(fat)
  {
    var gone := ch[m..];
    TailDistinct(fat, ch, m);
    hide IsChain, FreeCount;
    assert ch == ch[..m] + gone;
    forall c: nat
      ensures c in FreeSet(fat') <==> c in FreeSet(fat) || c in gone
      ensures c in gone ==> c !in FreeSet(fat)
    {
      EntryCut(fat, ch, m, fat', gone, c);
    }
    CountsApart(fat', fat, gone);
  }

  lemma TailDistinct(fat: seq<nat>, ch: seq<nat>, m: nat)
    requires Holds(fat, ch) && m <= |ch|
    ensures Distinct(ch[m..])
  {
  }

  lemma EntryCut(fat: seq<nat>, ch: seq<nat>, m: nat, fat': seq<nat>, gone: seq<nat>, c: nat)
    requires Holds(fat, ch) && Cut(fat, ch, m, fat') && ch == ch[..m] + gone
    ensures c in FreeSet(fat') <==> c in FreeSet(fat) || c in gone
    ensures c in gone ==> c !in FreeSet(fat)
  {
    hide IsChain;
    if c in ch {
      LinkNotFree(fat, ch, c);
    }
    if c in ch[..m] {
      LinkNotFree(fat', ch[..m], c);
    }
    if c in gone {
      var i :| 0 <= i < |gone| && gone[i] == c;
      assert ch[m + i] == c;
    }
  }

  // ---- ownership

  /**
    Every object holds a chain, no cluster has two owners, and every used cluster
    is owned or bad.  Every family of chains without common clusters is owned in
    this sense, with the used clusters of no chain as the bad ones.
    */
  ghost predicate Owned(fat: seq<nat>, owners: map<nat, seq<nat>>, bad: set<nat>) {
    && (forall k :: k in owners ==> Holds(fat, owners[k]))
    && (forall j, k :: j in owners && k in owners && j != k ==> Apart(owners[j], owners[k]))
    && (forall k, c :: k in owners && c in owners[k] ==> c !in bad)
    && (forall c: nat :: 2 <= c < |fat| && fat[c] != 0 ==> c in bad || HasOwner(owners, c))
    && (forall c :: c in bad && c < |fat| ==> fat[c] != 0)
  }

  ghost predicate Apart(a: seq<nat>, b: seq<nat>) {
    forall c :: c in a ==> c !in b
  }

  ghost predicate HasOwner(owners: map<nat, seq<nat>>, c: nat) {
    exists k :: k in owners && c in owners[k]
  }

  lemma ExtendKeepsOwned(fat: seq<nat>, owners: map<nat, seq<nat>>, bad: set<nat>, k: nat, fat': seq<nat>,
                         ch': seq<nat>)
    requires Owned(fat, owners, bad) && k in owners && Extended(fat, owners[k], fat', ch')
    ensures Owned(fat', owners[k := ch'], bad)
  {
    hide IsChain;
    var owners', ch := owners[k := ch'], owners[k];
    forall c | c in ch'
      ensures c in ch || (c < |fat| && fat[c] == 0)
    {
      var i :| 0 <= i < |ch'| && ch'[i] == c;
      if i < |ch| {
        assert ch[i] == c;
      } else {
        LinkNotFree(fat', ch', c);
      }
    }
    forall j | j in owners && j != k
      ensures Apart(owners[j], ch') && Holds(fat', owners[j])
    {
      forall c | c in owners[j]
        ensures c !in ch'
      {
        LinkNotFree(fat, owners[j], c);
      }
      ChainFrame(fat, owners[j], fat');
    }
    forall c: nat | 2 <= c < |fat'| && fat'[c] != 0
      ensures c in bad || HasOwner(owners', c)
    {
      if c in ch' {
        assert k in owners' && c in owners'[k];
      } else if c !in bad {
        var j :| j in owners && c in owners[j];
        assert ch <= ch' && j != k;
        assert j in owners' && c in owners'[j];
      }
    }
  }

  /** Objects other than k keep their chains when only clusters of k's chain and free ones change. */
  lemma CutOthers(fat: seq<nat>, owners: map<nat, seq<nat>>, bad: set<nat>, k: nat, m: nat, fat': seq<nat>, j: nat)
    requires Owned(fat, owners, bad) && k in owners && Cut(fat, owners[k], m, fat')
    requires j in owners && j != k
    ensures Apart(owners[j], owners[k][..m]) && Apart(owners[k][..m], owners[j]) && Holds(fat', owners[j])
  {
    assert Apart(owners[j], owners[k]) && Apart(owners[k], owners[j]);
    assert forall c :: c in owners[k][..m] ==> c in owners[k];
    ChainFrame(fat, owners[j], fat');
  }

  lemma CutKeepsOwned(fat: seq<nat>, owners: map<nat, seq<nat>>, bad: set<nat>, k: nat, m: nat, fat': seq<nat>)
    requires Owned(fat, owners, bad) && k in owners && Cut(fat, owners[k], m, fat')
    ensures Owned(fat', owners[k := owners[k][..m]], bad)
  {
    hide IsChain;
    var ch := owners[k];
    var owners' := owners[k := ch[..m]];
    forall j | j in owners && j != k
      ensures Apart(owners[j], ch[..m]) && Apart(ch[..m], owners[j]) && Holds(fat', owners[j])
    {
      CutOthers(fat, owners, bad, k, m, fat', j);
    }
    forall c: nat | 2 <= c < |fat'| && fat'[c] != 0
      ensures c in bad || HasOwner(owners', c)
    {
      if c in ch {
        var i :| 0 <= i < |ch| && ch[i] == c;
        assert i < m && c == ch[..m][i];
        assert k in owners' && c in owners'[k];
      } else if c !in bad {
        var j :| j in owners && c in owners[j];
        assert j in owners' && c in owners'[j];
      }
    }
  }

  // ---- runs

  /** What happens to the table and the objects in one operation. */
  datatype Step =
    | New(k: nat)                                            // an object without data appears
    | Grow(k: nat, fat: seq<nat>, ch: seq<nat>)              // a chain gets free clusters
    | Shrink(k: nat, m: nat, fat: seq<nat>)                  // a chain loses its tail
    | Gone(k: nat)                                           // an object without data disappears

  datatype State = State(fat: seq<nat>, owners: map<nat, seq<nat>>)

  ghost predicate Legal(s: State, step: Step) {
    match step
    case New(k) => k !in s.owners
    case Grow(k, fat, ch) => k in s.owners && Extended(s.fat, s.owners[k], fat, ch)
    case Shrink(k, m, fat) => k in s.owners && Cut(s.fat, s.owners[k], m, fat)
    case Gone(k) => k in s.owners && s.owners[k] == []
  }

  ghost function Apply(s: State, step: Step): State
    requires Legal(s, step)
  {
    match step
    case New(k) => State(s.fat, s.owners[k := []])
    case Grow(k, fat, ch) => State(fat, s.owners[k := ch])
    case Shrink(k, m, fat) => State(fat, s.owners[k := s.owners[k][..m]])
    case Gone(k) => State(s.fat, s.owners - {k})
  }

  ghost predicate LegalRun(s: State, run: seq<Step>)
    decreases |run|
  {
    run == [] || (Legal(s, run[0]) && LegalRun(Apply(s, run[0]), run[1..]))
  }

  ghost function Final(s: State, run: seq<Step>): State
    requires LegalRun(s, run)
    decreases |run|
  {
    if run == [] then s else Final(Apply(s, run[0]), run[1..])
  }

  lemma StepKeepsOwned(s: State, step: Step, bad: set<nat>)
    requires Owned(s.fat, s.owners, bad) && Legal(s, step)
    ensures Owned(Apply(s, step).fat, Apply(s, step).owners, bad)
  {
    match step
    case New(k) =>
      assert forall c :: HasOwner(s.owners, c) ==> HasOwner(s.owners[k := []], c) by {
        forall c | HasOwner(s.owners, c)
          ensures HasOwner(s.owners[k := []], c)
        {
          var j :| j in s.owners && c in s.owners[j];
          assert j in s.owners[k := []] && c in s.owners[k := []][j];
        }
      }
    case Grow(k, fat, ch) => ExtendKeepsOwned(s.fat, s.owners, bad, k, fat, ch);
    case Shrink(k, m, fat) => CutKeepsOwned(s.fat, s.owners, bad, k, m, fat);
    case Gone(k) =>
      forall c | HasOwner(s.owners, c)
        ensures HasOwner(s.owners - {k}, c)
      {
        var j :| j in s.owners && c in s.owners[j];
        assert j in s.owners - {k} && c in (s.owners - {k})[j];
      }
  }

  /** Ownership over all runs: chains stay acyclic and ended, disjoint, and nothing leaks. */
  lemma {:induction false} RunKeepsOwned(s: State, run: seq<Step>, bad: set<nat>)
    requires Owned(s.fat, s.owners, bad) && LegalRun(s, run)
    ensures Owned(Final(s, run).fat, Final(s, run).owners, bad)
    decreases |run|
  {
    if run != [] {
      StepKeepsOwned(s, run[0], bad);
      RunKeepsOwned(Apply(s, run[0]), run[1..], bad);
    }
  }

  /** An object nobody knows any more: its clusters are used, but owned by none. */
  lemma OwnerLost(fat: seq<nat>, owners: map<nat, seq<nat>>, bad: set<nat>, k: nat)
    requires Owned(fat, owners, bad) && k in owners
    ensures Owned(fat, owners - {k}, bad + LinksOf(owners[k]))
  {
    hide IsChain;
    var bad' := bad + LinksOf(owners[k]);
    forall c: nat | 2 <= c < |fat| && fat[c] != 0
      ensures c in bad' || HasOwner(owners - {k}, c)
    {
      if c !in bad {
        var j :| j in owners && c in owners[j];
        assert j != k ==> j in owners - {k} && c in (owners - {k})[j];
      }
    }
    forall c | c in bad' && c < |fat|
      ensures fat[c] != 0
    {
      if c in owners[k] {
        LinkNotFree(fat, owners[k], c);
      }
    }
  }
}
