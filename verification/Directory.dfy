/**
  A directory as a finite map from names to slots, whatever table it lies in.
  */
module Directory {
  import opened Bytes
  import opened Geometry
  import opened FatTable
  import opened Entries

  datatype Option<+T> = None | Some(value: T)

  const DDEM := 0xE5      // first byte of a deleted entry
  const SLOTS_PER_SECTOR := 16
  const MAX_SLOTS := 0x20_0000 / 32   // directories are cut off at MAX_DIR bytes

  type Name11 = n: seq<byte> | |n| == 11 witness seq(11, _ => 0x20)

  /** The entry a lookup of a name accepts: not a volume label, and the same 11 bytes. */
  predicate Matches(e: Entry32, name: Name11) {
    !HasBit(e[DIR_ATTR], AM_VOL) && e[..11] == name
  }

  /** The attribute bits without the archive bit. */
  function Kind(e: Entry32): nat {
    e[DIR_ATTR] % 0x20
  }

  /** Entries dir_read gives out as files and directories. */
  predicate Visible(e: Entry32) {
    e[0] != DDEM && e[0] != 0x2E && e[DIR_ATTR] % 0x40 != 0x0F && Kind(e) != AM_VOL
  }

  predicate IsFree(e: Entry32) {
    e[0] == DDEM || e[0] == 0
  }

  /** What dir_find answers: the first accepted entry before the first one that starts with 00. */
  ghost function Find(slots: seq<Entry32>, name: Name11, from: nat): (r: Option<nat>)
    ensures r.Some? ==> from <= r.value < |slots| && Matches(slots[r.value], name)
    decreases |slots| - from
  {
    if from >= |slots| || slots[from][0] == 0 then None
    else if Matches(slots[from], name) then Some(from)
    else Find(slots, name, from + 1)
  }

  /** What dir_read answers from a slot on. */
  ghost function FirstVisible(slots: seq<Entry32>, from: nat): (r: Option<nat>)
    ensures r.Some? ==> from <= r.value < |slots| && Visible(slots[r.value])
    decreases |slots| - from
  {
    if from >= |slots| || slots[from][0] == 0 then None
    else if Visible(slots[from]) then Some(from)
    else FirstVisible(slots, from + 1)
  }

  /** The slot dir_alloc takes. */
  ghost function FirstFree(slots: seq<Entry32>, from: nat): (r: Option<nat>)
    ensures r.Some? ==> from <= r.value < |slots| && IsFree(slots[r.value])
    decreases |slots| - from
  {
    if from >= |slots| then None
    else if IsFree(slots[from]) then Some(from)
    else FirstFree(slots, from + 1)
  }

  /** Names the parser produces: never a free entry's first byte. */
  predicate Proper(name: Name11) {
    name[0] != 0 && name[0] != DDEM
  }

  /** After the first 00 entry there are only 00 entries. */
  ghost predicate ZeroTail(slots: seq<Entry32>) {
    forall i, j :: 0 <= i < j < |slots| && slots[i][0] == 0 ==> slots[j][0] == 0
  }

  /** No two entries a lookup could accept have the same name. */
  ghost predicate NamesUnique(slots: seq<Entry32>) {
    forall i, j :: 0 <= i < j < |slots| && !IsFree(slots[j]) && Matches(slots[j], slots[i][..11]) ==>
      HasBit(slots[i][DIR_ATTR], AM_VOL)
  }

  /** A directory: well ended, names unique. */
  ghost predicate WellFormed(slots: seq<Entry32>) {
    ZeroTail(slots) && NamesUnique(slots)
  }

  /** The fresh entry dir_register writes. */
  function NewEntry(name: Name11): Entry32 {
    name + seq(ENTRY_SIZE - 11, _ => 0)
  }

  /** A fresh entry tells no clusters and is no volume label. */
  lemma NewEntryReads(t: FatType, name: Name11)
    ensures LdClust(t, NewEntry(name)) == 0 && NewEntry(name)[DIR_ATTR] == 0 && NewEntry(name)[..11] == name
    ensures forall k :: 11 <= k < 32 ==> NewEntry(name)[k] == 0
  {
  }

  /** The entry dir_remove leaves. */
  function Deleted(e: Entry32): Entry32 {
    e[0 := DDEM]
  }

  // ---- the answers by bytes

  /** No entry that starts with 00 from one slot to another. */
  ghost predicate Unended(slots: seq<Entry32>, from: nat, i: nat) {
    i < |slots| && forall j :: from <= j <= i ==> slots[j][0] != 0
  }

  /** An entry with the name that is no volume label: bit 3 of byte 11 is clear. */
  ghost predicate HasName(e: Entry32, name: Name11) {
    e[..11] == name && e[11] / 8 % 2 == 0
  }

  /** Deleted, a dot entry, a part of a long name, or a volume label. */
  ghost predicate Hidden(e: Entry32) {
    e[0] == 0xE5 || e[0] == 0x2E || e[11] % 0x40 == 0x0F || e[11] % 0x20 == 8
  }

  /** Every slot before the first 00 is hidden. */
  ghost predicate OnlyHidden(slots: seq<Entry32>) {
    forall i: nat :: Unended(slots, 0, i) ==> Hidden(slots[i])
  }

  /** A lookup finds slot i exactly when it is the first with the name, before every 00. */
  lemma {:induction false} FindByBytes(slots: seq<Entry32>, name: Name11, from: nat, i: nat)
    ensures Find(slots, name, from) == Some(i) <==>
      && from <= i && Unended(slots, from, i) && HasName(slots[i], name)
      && forall j :: from <= j < i ==> !HasName(slots[j], name)
    decreases |slots| - from
  {
    if from < |slots| && slots[from][0] != 0 && !Matches(slots[from], name) {
      FindByBytes(slots, name, from + 1, i);
      assert !HasName(slots[from], name);
    }
  }

  /** dir_read gives out slot i exactly when it is the first that is not hidden, before every 00. */
  lemma {:induction false} VisibleByBytes(slots: seq<Entry32>, from: nat, i: nat)
    ensures FirstVisible(slots, from) == Some(i) <==>
      && from <= i && Unended(slots, from, i) && !Hidden(slots[i])
      && forall j :: from <= j < i ==> Hidden(slots[j])
    decreases |slots| - from
  {
    if from < |slots| && slots[from][0] != 0 && !Visible(slots[from]) {
      VisibleByBytes(slots, from + 1, i);
      assert Hidden(slots[from]);
    }
  }

  /** A directory is empty exactly when every slot before the first 00 is hidden. */
  lemma NothingVisible(slots: seq<Entry32>)
    ensures FirstVisible(slots, 0) == None <==> OnlyHidden(slots)
  {
    var v := FirstVisible(slots, 0);
    if v.Some? {
      VisibleByBytes(slots, 0, v.value);
    } else {
      forall i: nat | Unended(slots, 0, i)
        ensures Hidden(slots[i])
      {
        InvisibleHidden(slots, 0, i);
      }
    }
  }

  lemma {:induction false} InvisibleHidden(slots: seq<Entry32>, from: nat, i: nat)
    requires FirstVisible(slots, from) == None && from <= i && Unended(slots, from, i)
    ensures Hidden(slots[i])
    decreases i - from
  {
    if from < i {
      assert slots[from][0] != 0;
      InvisibleHidden(slots, from + 1, i);
    }
  }

  /** dir_alloc takes the first slot that starts with E5 or 00. */
  lemma {:induction false} FreeByBytes(slots: seq<Entry32>, from: nat, i: nat)
    ensures FirstFree(slots, from) == Some(i) <==>
      && from <= i < |slots| && (slots[i][0] == 0xE5 || slots[i][0] == 0)
      && forall j :: from <= j < i ==> slots[j][0] != 0xE5 && slots[j][0] != 0
    decreases |slots| - from
  {
    if from < |slots| && !IsFree(slots[from]) {
      FreeByBytes(slots, from + 1, i);
    }
  }

  // ---- lookups

  /** A found slot holds the name, is in front of every 00 entry, and no slot before it is accepted. */
  lemma {:induction false} FindIsFirst(slots: seq<Entry32>, name: Name11, from: nat, i: nat)
    requires from <= i < |slots| && Find(slots, name, from) == Some(i)
    ensures forall j :: from <= j <= i ==> slots[j][0] != 0
    ensures forall j :: from <= j < i ==> !Matches(slots[j], name)
    decreases |slots| - from
  {
    if from < i {
      FindIsFirst(slots, name, from + 1, i);
    }
  }

  /** In a well-ended directory a lookup finds an accepted proper name wherever it is. */
  lemma {:induction false} FindFinds(slots: seq<Entry32>, name: Name11, from: nat, i: nat)
    requires ZeroTail(slots) && Proper(name) && from <= i < |slots| && Matches(slots[i], name)
    ensures Find(slots, name, from).Some?
    decreases |slots| - from
  {
    assert slots[i][0] == slots[i][..11][0] == name[0];
    if slots[from][0] != 0 && !Matches(slots[from], name) {
      FindFinds(slots, name, from + 1, i);
    }
  }

  lemma AbsentNowhere(slots: seq<Entry32>, name: Name11, i: nat)
    requires ZeroTail(slots) && Proper(name) && i < |slots| && Find(slots, name, 0) == None
    ensures !Matches(slots[i], name)
  {
    if Matches(slots[i], name) {
      FindFinds(slots, name, 0, i);
    }
  }

  lemma {:induction false} FindNone(slots: seq<Entry32>, name: Name11, from: nat)
    requires forall j :: from <= j < |slots| ==> !Matches(slots[j], name)
    ensures Find(slots, name, from) == None
    decreases |slots| - from
  {
    if from < |slots| {
      FindNone(slots, name, from + 1);
    }
  }

  /** A lookup only depends on what it accepts or stops at. */
  lemma {:induction false} FindSame(slots: seq<Entry32>, slots': seq<Entry32>, name: Name11, from: nat)
    requires |slots| <= |slots'|
    requires forall j :: from <= j < |slots| ==> (slots'[j][0] == 0 <==> slots[j][0] == 0)
    requires forall j :: from <= j < |slots| ==> (Matches(slots'[j], name) <==> Matches(slots[j], name))
    requires forall j :: |slots| <= j < |slots'| ==> slots'[j][0] == 0
    ensures Find(slots', name, from) == Find(slots, name, from)
    decreases |slots'| - from
  {
    if from < |slots| {
      FindSame(slots, slots', name, from + 1);
    } else if from < |slots'| {
      assert slots'[from][0] == 0;
    }
  }

  /** slots' is slots and then 00 entries: what a stretched table holds. */
  ghost predicate Grown(slots: seq<Entry32>, slots': seq<Entry32>) {
    slots <= slots' && forall i :: |slots| <= i < |slots'| ==> slots'[i][0] == 0
  }

  lemma GrownTrans(a: seq<Entry32>, b: seq<Entry32>, c: seq<Entry32>)
    requires Grown(a, b) && Grown(b, c)
    ensures Grown(a, c)
  {
    forall i | |a| <= i < |c|
      ensures c[i][0] == 0
    {
      if i < |b| {
        assert c[i] == b[i];
      }
    }
  }

  lemma GrownLonger(a: seq<Entry32>, b: seq<Entry32>)
    requires Grown(a, b)
    ensures |a| <= |b|
  {
  }

  /** Stretching the table changes no lookup. */
  lemma StretchKeepsLookups(slots: seq<Entry32>, slots': seq<Entry32>, name: Name11)
    requires Grown(slots, slots')
    ensures Find(slots', name, 0) == Find(slots, name, 0)
  {
    FindSame(slots, slots', name, 0);
  }

  /** Stretching keeps a directory well formed. */
  lemma StretchKeepsForm(slots: seq<Entry32>, slots': seq<Entry32>)
    requires Grown(slots, slots') && WellFormed(slots)
    ensures WellFormed(slots')
  {
    forall i, j | 0 <= i < j < |slots'| && !IsFree(slots'[j]) && Matches(slots'[j], slots'[i][..11])
      ensures HasBit(slots'[i][DIR_ATTR], AM_VOL)
    {
      assert j < |slots|;
      assert slots'[i] == slots[i] && slots'[j] == slots[j];
    }
  }

  /** Registering at the 00 entry: everything behind it was invisible and stays so. */
  lemma {:induction false} FindPastEnd(slots: seq<Entry32>, slots': seq<Entry32>, name: Name11, from: nat, i: nat)
    requires from <= i < |slots| && |slots'| == |slots| && ZeroTail(slots) && slots[i][0] == 0
    requires forall j :: 0 <= j < |slots| && j != i ==> slots'[j] == slots[j]
    requires !Matches(slots'[i], name)
    ensures Find(slots', name, from) == Find(slots, name, from)
    decreases i - from
  {
    if from < i {
      FindPastEnd(slots, slots', name, from + 1, i);
    } else if from + 1 < |slots| {
      assert slots'[from + 1][0] == 0;
    }
  }

  /** dir_register of an absent name: it is found at its slot, and every other lookup keeps its answer. */
  lemma RegisterFinds(slots: seq<Entry32>, i: nat, name: Name11)
    requires WellFormed(slots) && Proper(name) && Find(slots, name, 0) == None && FirstFree(slots, 0) == Some(i)
    ensures Find(slots[i := NewEntry(name)], name, 0) == Some(i)
    ensures WellFormed(slots[i := NewEntry(name)])
  {
    var slots' := slots[i := NewEntry(name)];
    assert NewEntry(name)[..11] == name && Matches(NewEntry(name), name);
    assert NewEntry(name)[0] == name[0];
    forall j | 0 <= j < |slots|
      ensures !Matches(slots[j], name)
    {
      AbsentNowhere(slots, name, j);
    }
    FirstFreeIsFirst(slots, 0, i);
    FindReaches(slots', name, 0, i);
    forall a, b | 0 <= a < b < |slots'| && !IsFree(slots'[b]) && Matches(slots'[b], slots'[a][..11])
      ensures HasBit(slots'[a][DIR_ATTR], AM_VOL)
    {
      if b == i {
        assert slots[a][..11] == name;
        assert !Matches(slots[a], name);
      }
    }
  }

  lemma {:induction false} FirstFreeIsFirst(slots: seq<Entry32>, from: nat, i: nat)
    requires from <= i < |slots| && FirstFree(slots, from) == Some(i)
    ensures forall j :: from <= j < i ==> !IsFree(slots[j])
    decreases |slots| - from
  {
    if from < i {
      FirstFreeIsFirst(slots, from + 1, i);
    }
  }

  lemma {:induction false} FindReaches(slots: seq<Entry32>, name: Name11, from: nat, i: nat)
    requires from <= i < |slots| && Matches(slots[i], name) && slots[i][0] != 0
    requires forall j :: from <= j < i ==> slots[j][0] != 0 && !Matches(slots[j], name)
    ensures Find(slots, name, from) == Some(i)
    decreases i - from
  {
    if from < i {
      FindReaches(slots, name, from + 1, i);
    }
  }

  /** None of the first n slots is free. */
  ghost predicate NoneFree(slots: seq<Entry32>, n: nat) {
    forall j :: 0 <= j < n && j < |slots| ==> !IsFree(slots[j])
  }

  lemma NoneFreeGrown(slots: seq<Entry32>, slots': seq<Entry32>, n: nat)
    requires Grown(slots, slots') && n <= |slots|
    ensures NoneFree(slots, n) <==> NoneFree(slots', n)
  {
    assert forall j :: 0 <= j < n ==> slots'[j] == slots[j];
  }

  lemma {:induction false} FirstFreeIs(slots: seq<Entry32>, from: nat, i: nat)
    requires from <= i < |slots| && NoneFree(slots, i) && IsFree(slots[i])
    ensures FirstFree(slots, from) == Some(i)
    decreases i - from
  {
    if from < i {
      FirstFreeIs(slots, from + 1, i);
    }
  }

  lemma {:induction false} NoneFreeAtAll(slots: seq<Entry32>, from: nat)
    requires NoneFree(slots, |slots|)
    ensures FirstFree(slots, from) == None
    decreases |slots| - from
  {
    if from < |slots| {
      NoneFreeAtAll(slots, from + 1);
    }
  }

  lemma RegisterKeepsOthers(slots: seq<Entry32>, i: nat, name: Name11, other: Name11)
    requires ZeroTail(slots) && FirstFree(slots, 0) == Some(i)
    requires Proper(name) && Proper(other) && other != name
    ensures Find(slots[i := NewEntry(name)], other, 0) == Find(slots, other, 0)
  {
    var slots' := slots[i := NewEntry(name)];
    assert NewEntry(name)[..11] == name;
    assert NewEntry(name)[0] == name[0];
    if slots[i][0] == 0 {
      FindPastEnd(slots, slots', other, 0, i);
    } else {
      assert slots[i][..11][0] == slots[i][0];
      FindSame(slots, slots', other, 0);
    }
  }

  /** What dir_register makes of the slots: possibly stretched, with a fresh entry in the first free slot. */
  ghost predicate Registered(slots: seq<Entry32>, name: Name11, i: nat, slots': seq<Entry32>) {
    exists mid: seq<Entry32> :: Grown(slots, mid) && FirstFree(mid, 0) == Some(i) && slots' == mid[i := NewEntry(name)]
  }

  /** Registering an absent name, stretched table or not, is one insertion into the map. */
  lemma RegisterInserts(slots: seq<Entry32>, name: Name11, i: nat, slots': seq<Entry32>, other: Name11)
    requires Registered(slots, name, i, slots')
    requires WellFormed(slots) && Proper(name) && Proper(other) && Find(slots, name, 0) == None
    ensures WellFormed(slots') && Find(slots', name, 0) == Some(i)
    ensures other != name ==> Find(slots', other, 0) == Find(slots, other, 0)
  {
    hide WellFormed, Grown, Registered, NewEntry;
    var mid := MidOf(slots, name, i, slots');
    StretchKeepsForm(slots, mid);
    StretchKeepsLookups(slots, mid, name);
    StretchKeepsLookups(slots, mid, other);
    RegisterFinds(mid, i, name);
    if other != name {
      EndsWell(mid);
      RegisterKeepsOthers(mid, i, name, other);
    }
  }

  ghost function MidOf(slots: seq<Entry32>, name: Name11, i: nat, slots': seq<Entry32>): (mid: seq<Entry32>)
    requires Registered(slots, name, i, slots')
    ensures Grown(slots, mid) && FirstFree(mid, 0) == Some(i) && slots' == mid[i := NewEntry(name)]
  {
    var mid :| Grown(slots, mid) && FirstFree(mid, 0) == Some(i) && slots' == mid[i := NewEntry(name)];
    mid
  }

  lemma EndsWell(slots: seq<Entry32>)
    requires WellFormed(slots)
    ensures ZeroTail(slots)
  {
  }

  /** slots' answers like slots, except that name is found at slot i. */
  ghost predicate Inserted(slots: seq<Entry32>, name: Name11, i: nat, slots': seq<Entry32>) {
    && WellFormed(slots') && Find(slots', name, 0) == Some(i)
    && (forall other: Name11 :: Proper(other) && other != name ==> Find(slots', other, 0) == Find(slots, other, 0))
  }

  lemma RegisteredInserts(slots: seq<Entry32>, name: Name11, i: nat, slots': seq<Entry32>)
    requires Registered(slots, name, i, slots')
    requires WellFormed(slots) && Proper(name) && Find(slots, name, 0) == None
    ensures Inserted(slots, name, i, slots')
  {
    hide WellFormed, Registered;
    RegisterInserts(slots, name, i, slots', name);
    forall other: Name11 | Proper(other) && other != name
      ensures Find(slots', other, 0) == Find(slots, other, 0)
    {
      RegisterInserts(slots, name, i, slots', other);
    }
  }

  /** Rewriting the rest of a found entry changes no lookup. */
  lemma RefreshKeeps(slots: seq<Entry32>, name: Name11, i: nat, e: Entry32)
    requires WellFormed(slots) && Find(slots, name, 0) == Some(i)
    requires e[..11] == slots[i][..11] && !HasBit(e[DIR_ATTR], AM_VOL)
    ensures Inserted(slots, name, i, slots[i := e])
  {
    var slots' := slots[i := e];
    assert e[0] == e[..11][0] == slots[i][0];
    forall other: Name11
      ensures Find(slots', other, 0) == Find(slots, other, 0)
    {
      FindSame(slots, slots', other, 0);
    }
    forall a, b | 0 <= a < b < |slots'| && !IsFree(slots'[b]) && Matches(slots'[b], slots'[a][..11])
      ensures HasBit(slots'[a][DIR_ATTR], AM_VOL)
    {
      assert !IsFree(slots[b]) && Matches(slots[b], slots[a][..11]);
    }
  }

  lemma InsertedFinds(slots: seq<Entry32>, name: Name11, i: nat, slots': seq<Entry32>)
    requires Inserted(slots, name, i, slots')
    ensures WellFormed(slots') && Find(slots', name, 0) == Some(i)
  {
  }

  lemma InsertedTwice(a: seq<Entry32>, b: seq<Entry32>, c: seq<Entry32>, name: Name11, i: nat)
    requires Inserted(a, name, i, b) && Inserted(b, name, i, c)
    ensures Inserted(a, name, i, c)
  {
  }

  /** dir_remove of a found name: it is absent then, and every other lookup keeps its answer. */
  lemma RemoveLoses(slots: seq<Entry32>, i: nat, name: Name11)
    requires WellFormed(slots) && Proper(name) && Find(slots, name, 0) == Some(i)
    ensures Find(slots[i := Deleted(slots[i])], name, 0) == None
    ensures WellFormed(slots[i := Deleted(slots[i])])
  {
    var slots' := slots[i := Deleted(slots[i])];
    FindIsFirst(slots, name, 0, i);
    assert slots'[i][..11][0] == DDEM;
    assert slots[i][..11] == name;
    forall j | 0 <= j < |slots|
      ensures !Matches(slots'[j], name)
    {
      assert slots[j][0] == slots[j][..11][0];
      if j > i {
        assert !(!IsFree(slots[j]) && Matches(slots[j], slots[i][..11]));
      }
    }
    FindNone(slots', name, 0);
  }

  lemma RemoveKeepsOthers(slots: seq<Entry32>, i: nat, other: Name11)
    requires Proper(other) && i < |slots| && slots[i][0] != 0 && slots[i][..11] != other
    ensures Find(slots[i := Deleted(slots[i])], other, 0) == Find(slots, other, 0)
  {
    var slots' := slots[i := Deleted(slots[i])];
    assert slots'[i][..11][0] == DDEM;
    FindSame(slots, slots', other, 0);
  }

  /** In a well-formed directory every used entry is the one a lookup of its name finds. */
  lemma UsedIsFound(slots: seq<Entry32>, i: nat)
    requires WellFormed(slots) && i < |slots| && !IsFree(slots[i]) && !HasBit(slots[i][DIR_ATTR], AM_VOL)
    ensures Proper(slots[i][..11]) && Find(slots, slots[i][..11], 0) == Some(i)
  {
    var name: Name11 := slots[i][..11];
    assert name[0] == slots[i][0];
    FindFinds(slots, name, 0, i);
    var k := Find(slots, name, 0).value;
    FindIsFirst(slots, name, 0, k);
  }
}
