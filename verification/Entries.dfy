/**
  Directory entries: 32 bytes with an 11-byte name, attributes, a split first
  cluster number and a size.
  */
module Entries {
  import opened Bytes
  import opened Geometry
  import opened FatTable

  const ENTRY_SIZE := 32
  const DIR_ATTR := 11
  const DIR_CRT_TIME := 14
  const DIR_LST_ACC_DATE := 18
  const DIR_FST_CLUS_HI := 20
  const DIR_MOD_TIME := 22
  const DIR_FST_CLUS_LO := 26
  const DIR_FILE_SIZE := 28

  const AM_RDO := 0x01
  const AM_VOL := 0x08
  const AM_DIR := 0x10
  const AM_ARC := 0x20

  type Entry32 = e: seq<byte> | |e| == ENTRY_SIZE witness seq(ENTRY_SIZE, _ => 0)

  /** Whether attribute bit m (a power of two) is set. */
  predicate HasBit(b: byte, m: nat)
    requires m > 0
  {
    b / m % 2 == 1
  }

  function WithArchive(b: byte): byte {
    if HasBit(b, AM_ARC) then b else b + AM_ARC
  }

  /** ld_clust: the high half counts on FAT32 only. */
  function LdClust(t: FatType, e: Entry32): nat {
    LdWord(e, DIR_FST_CLUS_LO) + if t.FAT32? then LdWord(e, DIR_FST_CLUS_HI) * 0x1_0000 else 0
  }

  /** st_clust. */
  function StClust(t: FatType, e: Entry32, c: nat): Entry32 {
    var e1 := Patch(e, DIR_FST_CLUS_LO, WordBytes(c % 0x1_0000));
    if t.FAT32? then Patch(e1, DIR_FST_CLUS_HI, WordBytes(c / 0x1_0000)) else e1
  }

  function FileSize(e: Entry32): dword {
    LdDword(e, DIR_FILE_SIZE)
  }

  function Name(e: Entry32): seq<byte> {
    e[..DIR_ATTR]
  }

  /** What f_sync makes of the entry of a changed file. */
  function RecordEntry(t: FatType, e: Entry32, start: nat, size: nat, tm: nat): Entry32 {
    var e1 := StClust(t, Patch(e, DIR_ATTR, [WithArchive(e[DIR_ATTR])]), start);
    Patch(Patch(Patch(e1, DIR_FILE_SIZE, DwordBytes(size)), DIR_MOD_TIME, DwordBytes(tm)),
          DIR_LST_ACC_DATE, WordBytes(0))
  }

  /** Start cluster and size of an entry, by its bytes. */
  lemma EntryBytes(t: FatType, e: Entry32)
    ensures LdClust(t, e) ==
      e[26] as nat + 0x100 * (e[27] as nat)
      + if t.FAT32? then 0x1_0000 * (e[20] as nat) + 0x100_0000 * (e[21] as nat) else 0
    ensures FileSize(e) ==
      e[28] as nat + 0x100 * (e[29] as nat) + 0x1_0000 * (e[30] as nat) + 0x100_0000 * (e[31] as nat)
    ensures Name(e) == e[..11]
  {
  }

  lemma WordRoundTrip(s: seq<byte>, i: nat, v: nat)
    requires i + 2 <= |s|
    ensures LdWord(Patch(s, i, WordBytes(v)), i) == v % 0x1_0000
  {
    Split16(v);
  }

  lemma DwordRoundTrip(s: seq<byte>, i: nat, v: nat)
    requires i + 4 <= |s| && v < 0x1_0000_0000
    ensures LdDword(Patch(s, i, DwordBytes(v)), i) == v
  {
    Split16(v);
    Split16(v / 0x1_0000);
    assert v / 0x1_0000 / 0x100 == v / 0x100_0000;
    assert v == v % 0x1_0000 + v / 0x1_0000 * 0x1_0000;
  }

  /** Reading a field is not disturbed by a store elsewhere. */
  lemma WordKept(s: seq<byte>, i: nat, at: nat, bytes: seq<byte>)
    requires i + 2 <= |s| && at + |bytes| <= |s| && (i + 2 <= at || at + |bytes| <= i)
    ensures LdWord(Patch(s, at, bytes), i) == LdWord(s, i)
  {
  }

  lemma DwordKept(s: seq<byte>, i: nat, at: nat, bytes: seq<byte>)
    requires i + 4 <= |s| && at + |bytes| <= |s| && (i + 4 <= at || at + |bytes| <= i)
    ensures LdDword(Patch(s, at, bytes), i) == LdDword(s, i)
  {
  }

  lemma ClustRoundTrip(t: FatType, e: Entry32, c: nat)
    requires c < (if t.FAT32? then 0x1_0000_0000 else 0x1_0000)
    ensures LdClust(t, StClust(t, e, c)) == c
  {
    hide LdWord, Patch, WordBytes;
    var e1 := Patch(e, DIR_FST_CLUS_LO, WordBytes(c % 0x1_0000));
    WordRoundTrip(e, DIR_FST_CLUS_LO, c % 0x1_0000);
    if t.FAT32? {
      WordRoundTrip(e1, DIR_FST_CLUS_HI, c / 0x1_0000);
      WordKept(e1, DIR_FST_CLUS_LO, DIR_FST_CLUS_HI, WordBytes(c / 0x1_0000));
    }
  }

  /** st_clust by bytes: the words at 26 and, on FAT32, at 20; the rest stays. */
  lemma StClustBytes(t: FatType, e: Entry32, c: nat)
    requires c < (if t.FAT32? then 0x1_0000_0000 else 0x1_0000)
    ensures var r := StClust(t, e, c);
      && LdWord(r, 26) == c % 0x1_0000 && (t.FAT32? ==> LdWord(r, 20) == c / 0x1_0000)
      && (!t.FAT32? ==> LdWord(r, 20) == LdWord(e, 20))
    ensures forall k: nat :: k < 32 && k != 26 && k != 27 && (t.FAT32? ==> k != 20 && k != 21) ==>
      StClust(t, e, c)[k] == e[k]
  {
    hide LdWord, Patch, WordBytes;
    var e1 := Patch(e, DIR_FST_CLUS_LO, WordBytes(c % 0x1_0000));
    WordRoundTrip(e, DIR_FST_CLUS_LO, c % 0x1_0000);
    WordKept(e, 20, DIR_FST_CLUS_LO, WordBytes(c % 0x1_0000));
    if t.FAT32? {
      WordRoundTrip(e1, DIR_FST_CLUS_HI, c / 0x1_0000);
      WordKept(e1, DIR_FST_CLUS_LO, DIR_FST_CLUS_HI, WordBytes(c / 0x1_0000));
    }
    forall k: nat | k < 32 && k != 26 && k != 27 && (t.FAT32? ==> k != 20 && k != 21)
      ensures StClust(t, e, c)[k] == e[k]
    {
      PatchAt(e, DIR_FST_CLUS_LO, WordBytes(c % 0x1_0000), k);
      PatchAt(e1, DIR_FST_CLUS_HI, WordBytes(c / 0x1_0000), k);
    }
  }

  lemma ClustKept(t: FatType, e: Entry32, at: nat, bytes: seq<byte>)
    requires at + |bytes| <= ENTRY_SIZE
    requires at + |bytes| <= DIR_FST_CLUS_LO || DIR_FST_CLUS_LO + 2 <= at
    requires at + |bytes| <= DIR_FST_CLUS_HI || DIR_FST_CLUS_HI + 2 <= at
    ensures LdClust(t, Patch(e, at, bytes)) == LdClust(t, e)
  {
    hide LdWord, Patch;
    WordKept(e, DIR_FST_CLUS_LO, at, bytes);
    WordKept(e, DIR_FST_CLUS_HI, at, bytes);
  }

  /** Bytes a store leaves alone. */
  lemma BytesKept(e: Entry32, at: nat, bytes: seq<byte>)
    requires at + |bytes| <= ENTRY_SIZE
    ensures forall k: nat :: k < 32 && !(at <= k < at + |bytes|) ==> Patch(e, at, bytes)[k] == e[k]
    ensures forall k: nat :: at <= k < at + |bytes| ==> Patch(e, at, bytes)[k] == bytes[k - at]
  {
  }

  /** A dword of the entry is what its four bytes say. */
  lemma SameDword(e: Entry32, e': Entry32, i: nat)
    requires i + 4 <= 32 && forall k :: i <= k < i + 4 ==> e'[k] == e[k]
    ensures LdDword(e', i) == LdDword(e, i)
  {
  }

  lemma SameWord(e: Entry32, e': Entry32, i: nat)
    requires i + 2 <= 32 && forall k :: i <= k < i + 2 ==> e'[k] == e[k]
    ensures LdWord(e', i) == LdWord(e, i)
  {
  }

  /**
    The recorded entry tells start cluster, size and time, its archive bit is
    set, the date of the last access is cleared, and every other byte stays:
    name, other attributes, time of creation.
    */
  lemma RecordedEntryReads(t: FatType, e: Entry32, start: nat, size: nat, tm: nat)
    requires start < (if t.FAT32? then 0x1_0000_0000 else 0x1_0000) && size < 0x1_0000_0000
    ensures var r := RecordEntry(t, e, start, size, tm);
      && LdClust(t, r) == start && FileSize(r) == size && Name(r) == Name(e)
      && r[DIR_ATTR] == WithArchive(e[DIR_ATTR])
    ensures var r := RecordEntry(t, e, start, size, tm);
      && LdWord(r, 26) == start % 0x1_0000 && LdWord(r, 20) == (if t.FAT32? then start / 0x1_0000 else LdWord(e, 20))
      && LdDword(r, 28) == size && (tm < 0x1_0000_0000 ==> LdDword(r, 22) == tm) && LdWord(r, 18) == 0
      && r[11] == if e[11] / 0x20 % 2 == 1 then e[11] else e[11] + 0x20
    ensures forall k: nat :: k < 18 && k != 11 ==> RecordEntry(t, e, start, size, tm)[k] == e[k]
  {
    hide Patch, StClust, LdClust, FileSize, LdWord, LdDword, DwordBytes, WordBytes;
    var e0 := Patch(e, DIR_ATTR, [WithArchive(e[DIR_ATTR])]);
    var e1 := StClust(t, e0, start);
    var e2 := Patch(e1, DIR_FILE_SIZE, DwordBytes(size));
    var e3 := Patch(e2, DIR_MOD_TIME, DwordBytes(tm));
    var r: Entry32 := Patch(e3, DIR_LST_ACC_DATE, WordBytes(0));
    BytesKept(e, DIR_ATTR, [WithArchive(e[DIR_ATTR])]);
    StClustBytes(t, e0, start);
    BytesKept(e1, DIR_FILE_SIZE, DwordBytes(size));
    BytesKept(e2, DIR_MOD_TIME, DwordBytes(tm));
    BytesKept(e3, DIR_LST_ACC_DATE, WordBytes(0));
    DwordRoundTrip(e1, DIR_FILE_SIZE, size);
    if tm < 0x1_0000_0000 {
      DwordRoundTrip(e2, DIR_MOD_TIME, tm);
    }
    WordRoundTrip(e3, DIR_LST_ACC_DATE, 0);
    SameDword(e2, r, 28);
    SameDword(e3, r, 22);
    SameWord(e1, r, 26);
    SameWord(e1, r, 20);
    SameWord(e, e0, 20);
    SizeAndStart(t, r);
    assert Name(r) == Name(e);
  }

  lemma SizeAndStart(t: FatType, e: Entry32)
    ensures LdClust(t, e) == LdWord(e, 26) + if t.FAT32? then LdWord(e, 20) * 0x1_0000 else 0
    ensures FileSize(e) == LdDword(e, 28)
  {
  }

  /** What f_open makes of the entry of a created or overwritten file. */
  function ResetEntry(t: FatType, e: Entry32, tm: nat): Entry32 {
    var e1 := Patch(Patch(e, DIR_CRT_TIME, DwordBytes(tm)), DIR_MOD_TIME, DwordBytes(tm));
    Patch(StClust(t, Patch(e1, DIR_ATTR, [AM_ARC]), 0), DIR_FILE_SIZE, DwordBytes(0))
  }

  /** The reset entry tells an empty file created at tm; name and the bytes 12, 13, 18 and 19 stay. */
  lemma ResetEntryReads(t: FatType, e: Entry32, tm: nat)
    ensures var r := ResetEntry(t, e, tm);
      LdClust(t, r) == 0 && FileSize(r) == 0 && Name(r) == Name(e) && r[DIR_ATTR] == AM_ARC
    ensures var r := ResetEntry(t, e, tm);
      && LdWord(r, 26) == 0 && LdWord(r, 20) == (if t.FAT32? then 0 else LdWord(e, 20)) && LdDword(r, 28) == 0
      && (tm < 0x1_0000_0000 ==> LdDword(r, 14) == tm && LdDword(r, 22) == tm) && r[11] == 0x20
    ensures forall k: nat :: k < 20 && k != 11 && !(14 <= k < 18) ==> ResetEntry(t, e, tm)[k] == e[k]
  {
    hide Patch, StClust, LdClust, FileSize, LdWord, LdDword, DwordBytes;
    var e1 := Patch(e, DIR_CRT_TIME, DwordBytes(tm));
    var e2 := Patch(e1, DIR_MOD_TIME, DwordBytes(tm));
    var e3 := Patch(e2, DIR_ATTR, [AM_ARC]);
    var e4 := StClust(t, e3, 0);
    var r: Entry32 := Patch(e4, DIR_FILE_SIZE, DwordBytes(0));
    BytesKept(e, DIR_CRT_TIME, DwordBytes(tm));
    BytesKept(e1, DIR_MOD_TIME, DwordBytes(tm));
    BytesKept(e2, DIR_ATTR, [AM_ARC]);
    StClustBytes(t, e3, 0);
    BytesKept(e4, DIR_FILE_SIZE, DwordBytes(0));
    DwordRoundTrip(e4, DIR_FILE_SIZE, 0);
    if tm < 0x1_0000_0000 {
      DwordRoundTrip(e, DIR_CRT_TIME, tm);
      DwordRoundTrip(e1, DIR_MOD_TIME, tm);
    }
    SameDword(e1, r, 14);
    SameDword(e2, r, 22);
    SameWord(e4, r, 26);
    SameWord(e4, r, 20);
    SameWord(e, e3, 20);
    SizeAndStart(t, r);
    assert Name(r) == Name(e);
  }
}
