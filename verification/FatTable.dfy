/**
  The allocation table as an array of entries packed into bytes: 12 bits that
  share bytes and may straddle two sectors, 16 bits, or 28 bits below four
  reserved ones (get_fat and put_fat).
  */
module FatTable {
  import opened Bytes
  import opened Geometry

  /** Byte i of the first copy of the table. */
  ghost function FatByte(g: Geo, vol: seq<Sector>, i: nat): byte
    requires IsVolume(g, vol) && i < g.fsize * SECTOR_SIZE
  {
    vol[g.fatbase + i / SECTOR_SIZE][i % SECTOR_SIZE]
  }

  /** Offset of the first byte of an entry. */
  function EntryOffset(t: FatType, c: nat): nat {
    match t
    case FAT12 => c + c / 2
    case FAT16 => c * 2
    case FAT32 => c * 4
  }

  /** Every entry lies in the table. */
  lemma EntryInTable(g: Geo, c: nat)
    requires g.Valid() && c < g.nFatent
    ensures EntryOffset(g.fsType, c) + (if g.fsType.FAT32? then 3 else 1) < g.fsize * SECTOR_SIZE
  {
    match g.fsType
    case FAT12 =>
      assert c + c / 2 + 1 < g.nFatent * 3 / 2 + g.nFatent % 2;
    case FAT16 =>
      assert c * 2 + 1 < g.fsize * SECTOR_SIZE;
    case FAT32 =>
      assert c * 4 + 3 < g.fsize * SECTOR_SIZE;
  }

  /** Bytes an entry touches. */
  function Width(t: FatType): nat {
    if t.FAT32? then 4 else 2
  }

  /** The value held by the bytes of an entry; 12-bit entries start in the upper nibble when odd. */
  function Value(t: FatType, odd: bool, b0: byte, b1: byte, b2: byte, b3: byte): nat {
    match t
    case FAT12 => if odd then b0 / 16 + b1 * 16 else b0 + b1 % 16 * 0x100
    case FAT16 => b0 + b1 * 0x100
    case FAT32 => b0 + b1 * 0x100 + b2 * 0x1_0000 + b3 % 16 * 0x100_0000
  }

  /** What put_fat makes of byte k of an entry when it stores v. */
  function NewByte(t: FatType, odd: bool, v: nat, k: nat, b: byte): byte
    requires k < Width(t)
  {
    match t
    case FAT12 =>
      if k == 0 then (if odd then b % 16 + v % 16 * 16 else v % 0x100)
      else (if odd then v / 16 % 0x100 else b / 16 * 16 + v / 0x100 % 16)
    case FAT16 => ByteOf(v, k)
    case FAT32 => if k < 3 then ByteOf(v, k) else v / 0x100_0000 % 16 + b / 16 * 16
  }

  lemma Split12(v: nat)
    ensures v % 0x1000 == v % 0x100 + v / 0x100 % 16 * 0x100
    ensures v % 0x1000 == v % 16 + v / 16 % 0x100 * 16
  {
  }

  lemma Split16(v: nat)
    ensures v % 0x1_0000 == v % 0x100 + v / 0x100 % 0x100 * 0x100
  {
    var q, r := v / 0x100, v % 0x100;
    var p, t := q / 0x100, q % 0x100;
    assert v == p * 0x1_0000 + (t * 0x100 + r);
  }

  lemma Split28(v: nat)
    ensures v % 0x1000_0000 == v % 0x100 + v / 0x100 % 0x100 * 0x100 + v / 0x1_0000 % 0x100 * 0x1_0000
                               + v / 0x100_0000 % 16 * 0x100_0000
  {
    var high := v / 0x1_0000;
    Split16(v);
    Split12(high);
    assert high / 0x100 == v / 0x100_0000;
    assert v % 0x1000_0000 == v % 0x1_0000 + high % 0x1000 * 0x1_0000;
  }

  /** The nibble a 12-bit store must keep stays, the other one changes. */
  lemma Nibbles(b: byte, y: nat)
    requires y < 16
    ensures (b / 16 * 16 + y) % 16 == y && (b / 16 * 16 + y) / 16 == b / 16
    ensures (b % 16 + y * 16) % 16 == b % 16 && (b % 16 + y * 16) / 16 == y
  {
  }

  lemma NewValue(t: FatType, odd: bool, v: nat, b0: byte, b1: byte, b2: byte, b3: byte)
    ensures !t.FAT32? ==> Value(t, odd, NewByte(t, odd, v, 0, b0), NewByte(t, odd, v, 1, b1), b2, b3) == Masked(t, v)
    ensures t.FAT32? ==> Value(t, odd, NewByte(t, odd, v, 0, b0), NewByte(t, odd, v, 1, b1),
                               NewByte(t, odd, v, 2, b2), NewByte(t, odd, v, 3, b3)) == Masked(t, v)
  {
    match t
    case FAT12 =>
      Split12(v);
      Nibbles(b0, v % 16);
      Nibbles(b1, v / 0x100 % 16);
    case FAT16 =>
      Split16(v);
    case FAT32 =>
      Split28(v);
      Nibbles(b3, v / 0x100_0000 % 16);
  }

  /** The source merges the bytes into a word first and then shifts or masks it. */
  lemma WordOfBytes(b0: byte, b1: byte)
    ensures (b0 as nat + b1 as nat * 0x100) / 16 == Value(FAT12, true, b0, b1, 0, 0)
    ensures (b0 as nat + b1 as nat * 0x100) % 0x1000 == Value(FAT12, false, b0, b1, 0, 0)
  {
  }

  lemma DwordOfBytes(b0: byte, b1: byte, b2: byte, b3: byte)
    ensures (b0 as nat + 0x100 * (b1 as nat) + 0x1_0000 * (b2 as nat) + 0x100_0000 * (b3 as nat)) % 0x1000_0000
            == Value(FAT32, false, b0, b1, b2, b3)
  {
  }

  /** The dword put_fat stores: the value below the reserved bits already there. */
  function MergedDword(v: nat, was: nat): nat {
    v % 0x1000_0000 + was / 0x1000_0000 * 0x1000_0000
  }

  lemma MergedBytes(v: nat, low: nat, q: nat, top: nat, w: nat)
    requires v == low + q * 0x1000_0000 && w == low + top * 0x1000_0000 && low < 0x1000_0000 && top < 16
    ensures ByteOf(w, 0) == ByteOf(v, 0) && ByteOf(w, 1) == ByteOf(v, 1)
    ensures ByteOf(w, 3) == v / 0x100_0000 % 16 + top * 16
  {
    assert w / 0x100 == low / 0x100 + top * 0x10_0000;
    assert v / 0x100 == low / 0x100 + q * 0x10_0000;
    assert w / 0x100_0000 == low / 0x100_0000 + top * 0x10;
    assert v / 0x100_0000 == low / 0x100_0000 + q * 0x10;
  }

  lemma Shifted16(low: nat, t: nat)
    ensures (low + t * 0x1000_0000) / 0x1_0000 % 0x100 == low / 0x1_0000 % 0x100
  {
    var l, r := low / 0x1_0000, low % 0x1_0000;
    assert low + t * 0x1000_0000 == (l + t * 0x1000) * 0x1_0000 + r;
    assert (low + t * 0x1000_0000) / 0x1_0000 == l + t * 0x1000;
    var m, s := l / 0x100, l % 0x100;
    assert l + t * 0x1000 == (m + t * 0x10) * 0x100 + s;
  }

  lemma MergedDwordBytes(v: nat, odd: bool, sec: seq<byte>, i: nat, k: nat)
    requires i + 4 <= |sec| && k < 4
    ensures ByteOf(MergedDword(v, LdDword(sec, i)), k) == NewByte(FAT32, odd, v, k, sec[i + k])
  {
    var top := LdDword(sec, i) / 0x1000_0000;
    assert top == sec[i + 3] as nat / 16;
    var w := MergedDword(v, LdDword(sec, i));
    MergedBytes(v, v % 0x1000_0000, v / 0x1000_0000, top, w);
    Shifted16(v % 0x1000_0000, v / 0x1000_0000);
    Shifted16(v % 0x1000_0000, top);
  }

  /** What get_fat reads from the sectors that hold an entry. */
  lemma EntryFromSector12(g: Geo, vol: seq<Sector>, c: nat, b0: byte, b1: byte)
    requires IsVolume(g, vol) && g.InRange(c) && g.fsType.FAT12?
    requires var o := c + c / 2;
      o + 1 < g.fsize * SECTOR_SIZE && b0 == FatByte(g, vol, o) && b1 == FatByte(g, vol, o + 1)
    ensures var wc := b0 as nat + b1 as nat * 0x100;
      Entry(g, vol, c) == if c % 2 == 1 then wc / 16 else wc % 0x1000
  {
    WordOfBytes(b0, b1);
  }

  /** The value get_fat gives for an entry in range. */
  ghost function Entry(g: Geo, vol: seq<Sector>, c: nat): nat
    requires IsVolume(g, vol) && c < g.nFatent
  {
    EntryInTable(g, c);
    var o := EntryOffset(g.fsType, c);
    Value(g.fsType, c % 2 == 1, FatByte(g, vol, o), FatByte(g, vol, o + 1),
          if g.fsType.FAT32? then FatByte(g, vol, o + 2) else 0,
          if g.fsType.FAT32? then FatByte(g, vol, o + 3) else 0)
  }

  /** The four bits of a FAT32 entry that do not belong to its value. */
  ghost function ReservedBits(g: Geo, vol: seq<Sector>, c: nat): nat
    requires IsVolume(g, vol) && c < g.nFatent && g.fsType.FAT32?
  {
    FatByte(g, vol, c * 4 + 3) / 16
  }

  /** The part of a value an entry can hold. */
  function Masked(t: FatType, v: nat): nat {
    match t
    case FAT12 => v % 0x1000
    case FAT16 => v % 0x1_0000
    case FAT32 => v % 0x1000_0000
  }

  const ALL_ONES := 0xFFFF_FFFF

  /** The end mark written to the last entry of a chain. */
  function EndMark(t: FatType): nat {
    Masked(t, ALL_ONES)
  }

  /** The end mark is never a cluster, never a free or error value, and values in range survive masking. */
  lemma EndMarkEnds(g: Geo, c: nat)
    requires g.Valid()
    ensures g.nFatent <= EndMark(g.fsType) < ALL_ONES
    ensures EndMark(g.fsType) ==
      match g.fsType { case FAT12 => 0xFFF case FAT16 => 0xFFFF case FAT32 => 0x0FFF_FFFF }
    ensures c < g.nFatent ==> Masked(g.fsType, c) == c
  {
  }

  /** The entries by their bytes, counted from the start of the table. */
  lemma EntryByBytes(g: Geo, vol: seq<Sector>, c: nat)
    requires IsVolume(g, vol) && c < g.nFatent
    ensures match g.fsType
      case FAT12 =>
        && c * 3 / 2 + 1 < g.fsize * 512
        && var b0, b1 := FatByte(g, vol, c * 3 / 2), FatByte(g, vol, c * 3 / 2 + 1);
        Entry(g, vol, c) == if c % 2 == 0 then b0 + 0x100 * (b1 % 0x10) else b0 / 0x10 + 0x10 * b1
      case FAT16 =>
        && c * 2 + 1 < g.fsize * 512
        && Entry(g, vol, c) == FatByte(g, vol, c * 2) as nat + 0x100 * FatByte(g, vol, c * 2 + 1) as nat
      case FAT32 =>
        && c * 4 + 3 < g.fsize * 512
        && Entry(g, vol, c) ==
           FatByte(g, vol, c * 4) as nat + 0x100 * FatByte(g, vol, c * 4 + 1) as nat
           + 0x1_0000 * FatByte(g, vol, c * 4 + 2) as nat
           + 0x100_0000 * (FatByte(g, vol, c * 4 + 3) % 0x10) as nat
    ensures forall i: nat :: i < g.fsize * 512 ==> FatByte(g, vol, i) == vol[g.fatbase + i / 512][i % 512]
  {
    EntryInTable(g, c);
    assert c * 3 / 2 == c + c / 2;
    hide FatByte;
  }

  /** The whole table as a sequence of values. */
  ghost function Fat(g: Geo, vol: seq<Sector>): (fat: seq<nat>)
    requires IsVolume(g, vol)
    ensures |fat| == g.nFatent
  {
    seq(g.nFatent, c requires 0 <= c < g.nFatent => Entry(g, vol, c))
  }

  /** The table depends only on the sectors of its first copy. */
  lemma FatFrame(g: Geo, vol: seq<Sector>, vol': seq<Sector>)
    requires IsVolume(g, vol) && IsVolume(g, vol')
    requires forall s: nat :: g.InFat1(s) ==> vol'[s] == vol[s]
    ensures Fat(g, vol') == Fat(g, vol)
  {
    hide Value;
    forall c: nat | c < g.nFatent
      ensures Entry(g, vol', c) == Entry(g, vol, c)
    {
      EntryInTable(g, c);
    }
  }

  /** Both copies of the table, if there are two, agree. */
  ghost predicate Mirrored(g: Geo, vol: seq<Sector>)
    requires IsVolume(g, vol)
  {
    g.nFats == 2 ==> forall s: nat :: g.InFat1(s) ==> vol[s] == vol[s + g.fsize]
  }

  /** Replace a sector of the table in every copy. */
  ghost function SetFatSector(g: Geo, vol: seq<Sector>, s: nat, sec: Sector): (r: seq<Sector>)
    requires IsVolume(g, vol) && g.InFat1(s)
    ensures |r| == |vol|
  {
    if g.nFats == 2 then vol[s := sec][s + g.fsize := sec] else vol[s := sec]
  }

  /** Nothing but the copies of the table differs. */
  ghost predicate SameOutsideFats(g: Geo, vol: seq<Sector>, vol': seq<Sector>)
    requires IsVolume(g, vol) && IsVolume(g, vol')
  {
    forall s: nat :: s < g.devSize && g.OutsideFats(s) ==> vol'[s] == vol[s]
  }

  /** Replace a sector, in every copy if it belongs to the table. */
  ghost function SetSector(g: Geo, vol: seq<Sector>, s: nat, sec: Sector): (r: seq<Sector>)
    requires IsVolume(g, vol) && s < g.devSize
    ensures |r| == |vol|
  {
    if g.InFat1(s) then SetFatSector(g, vol, s, sec) else vol[s := sec]
  }

  lemma SetSectorFrame(g: Geo, vol: seq<Sector>, s: nat, sec: Sector)
    requires IsVolume(g, vol) && s < g.devSize && (g.InFat1(s) || g.OutsideFats(s))
    ensures forall t: nat :: t < g.devSize && g.OutsideFats(t) && t != s ==> SetSector(g, vol, s, sec)[t] == vol[t]
    ensures g.InFat1(s) ==> SameOutsideFats(g, vol, SetFatSector(g, vol, s, sec))
    ensures Mirrored(g, vol) ==> Mirrored(g, SetSector(g, vol, s, sec))
  {
  }

  /** put_fat has stored v at entry c, whatever its width and alignment. */
  ghost predicate EntryStored(g: Geo, vol: seq<Sector>, vol': seq<Sector>, c: nat, v: nat)
    requires IsVolume(g, vol) && IsVolume(g, vol') && c < g.nFatent
  {
    var o := EntryOffset(g.fsType, c);
    && (forall j: nat :: j < g.fsize * SECTOR_SIZE ==>
          FatByte(g, vol', j) ==
          if o <= j < o + Width(g.fsType) then NewByte(g.fsType, c % 2 == 1, v, j - o, FatByte(g, vol, j))
          else FatByte(g, vol, j))
  }

  /** Patching one sector changes exactly the patched bytes of the table. */
  lemma PatchedByte(g: Geo, vol: seq<Sector>, s: nat, at: nat, bytes: seq<byte>, j: nat)
    requires IsVolume(g, vol) && g.InFat1(s) && at + |bytes| <= SECTOR_SIZE && j < g.fsize * SECTOR_SIZE
    ensures var o := (s - g.fatbase) * SECTOR_SIZE + at;
      FatByte(g, SetFatSector(g, vol, s, Patch(vol[s], at, bytes)), j) ==
      if o <= j < o + |bytes| then bytes[j - o] else FatByte(g, vol, j)
  {
    assert g.fatbase + j / SECTOR_SIZE != s + g.fsize;
  }

  /** The volume after put_fat's k-th byte store to a 12-bit entry. */
  ghost function PutByte12(g: Geo, vol: seq<Sector>, c: nat, v: nat, k: nat): (r: seq<Sector>)
    requires IsVolume(g, vol) && g.fsType.FAT12? && k < 2 && c + c / 2 + k < g.fsize * SECTOR_SIZE
    ensures |r| == |vol|
  {
    var i := c + c / 2 + k;
    var s := g.fatbase + i / SECTOR_SIZE;
    SetFatSector(g, vol, s, Patch(vol[s], i % SECTOR_SIZE, [NewByte(FAT12, c % 2 == 1, v, k, vol[s][i % SECTOR_SIZE])]))
  }

  /** The sector that holds a wider entry, and its sector after put_fat. */
  function EntrySector(g: Geo, c: nat): nat {
    g.fatbase + (if g.fsType.FAT16? then c / (SECTOR_SIZE / 2) else c / (SECTOR_SIZE / 4))
  }

  /** Where a wider entry starts in its sector. */
  function EntryStart(t: FatType, c: nat): nat {
    if t.FAT16? then c * 2 % SECTOR_SIZE else c * 4 % SECTOR_SIZE
  }

  lemma Halves(c: nat)
    ensures c / (SECTOR_SIZE / 2) * SECTOR_SIZE + c * 2 % SECTOR_SIZE == c * 2
    ensures c * 2 % SECTOR_SIZE <= SECTOR_SIZE - 2
  {
    var q, r := c / 256, c % 256;
    assert c * 2 == q * SECTOR_SIZE + r * 2;
  }

  lemma Quarters(c: nat)
    ensures c / (SECTOR_SIZE / 4) * SECTOR_SIZE + c * 4 % SECTOR_SIZE == c * 4
    ensures c * 4 % SECTOR_SIZE <= SECTOR_SIZE - 4
  {
    var q, r := c / 128, c % 128;
    assert c * 4 == q * SECTOR_SIZE + r * 4;
  }

  /** Sector and start name the same byte as the offset from the top of the table. */
  lemma EntryPlace(g: Geo, c: nat)
    requires g.Valid() && c < g.nFatent && !g.fsType.FAT12?
    ensures g.InFat1(EntrySector(g, c)) && EntrySector(g, c) < g.devSize
    ensures EntryStart(g.fsType, c) + Width(g.fsType) <= SECTOR_SIZE
    ensures (EntrySector(g, c) - g.fatbase) * SECTOR_SIZE + EntryStart(g.fsType, c) == EntryOffset(g.fsType, c)
    ensures EntryOffset(g.fsType, c) + Width(g.fsType) <= g.fsize * SECTOR_SIZE
  {
    EntryInTable(g, c);
    if g.fsType.FAT16? {
      Halves(c);
    } else {
      Quarters(c);
    }
  }

  function StoredSector(t: FatType, sec: Sector, c: nat, v: nat): Sector
    requires !t.FAT12? && EntryStart(t, c) + Width(t) <= SECTOR_SIZE
  {
    var o := EntryStart(t, c);
    if t.FAT16? then Patch(sec, o, WordBytes(v))
    else Patch(sec, o, DwordBytes(MergedDword(v, LdDword(sec, o))))
  }

  lemma EntryFromSector(g: Geo, vol: seq<Sector>, c: nat)
    requires IsVolume(g, vol) && c < g.nFatent && !g.fsType.FAT12?
    ensures var s, o := EntrySector(g, c), EntryStart(g.fsType, c);
      && g.InFat1(s) && s < g.devSize && o + Width(g.fsType) <= SECTOR_SIZE
      && Entry(g, vol, c) == if g.fsType.FAT16? then LdWord(vol[s], o) else LdDword(vol[s], o) % 0x1000_0000
  {
    hide EntryStart, EntrySector, FatByte;
    EntryPlace(g, c);
    var s, o := EntrySector(g, c), EntryStart(g.fsType, c);
    ByteInSector(g, vol, s, o);
    ByteInSector(g, vol, s, o + 1);
    if g.fsType.FAT32? {
      ByteInSector(g, vol, s, o + 2);
      ByteInSector(g, vol, s, o + 3);
      DwordOfBytes(vol[s][o], vol[s][o + 1], vol[s][o + 2], vol[s][o + 3]);
    }
  }

  ghost function PutWide(g: Geo, vol: seq<Sector>, c: nat, v: nat): (r: seq<Sector>)
    requires IsVolume(g, vol) && c < g.nFatent && !g.fsType.FAT12?
    ensures |r| == |vol|
  {
    EntryPlace(g, c);
    var s := EntrySector(g, c);
    SetFatSector(g, vol, s, StoredSector(g.fsType, vol[s], c, v))
  }

  ghost function PutTwice(g: Geo, vol: seq<Sector>, c: nat, v: nat): (r: seq<Sector>)
    requires IsVolume(g, vol) && c < g.nFatent && g.fsType.FAT12?
    ensures |r| == |vol|
  {
    EntryInTable(g, c);
    PutByte12(g, PutByte12(g, vol, c, v, 0), c, v, 1)
  }

  /** The volume after put_fat. */
  ghost function PutEntry(g: Geo, vol: seq<Sector>, c: nat, v: nat): (r: seq<Sector>)
    requires IsVolume(g, vol) && c < g.nFatent
    ensures |r| == |vol|
  {
    if g.fsType.FAT12? then PutTwice(g, vol, c, v) else PutWide(g, vol, c, v)
  }

  lemma PutByte12Reads(g: Geo, vol: seq<Sector>, c: nat, v: nat, k: nat, j: nat)
    requires IsVolume(g, vol) && g.fsType.FAT12? && k < 2 && c + c / 2 + k < g.fsize * SECTOR_SIZE
    requires j < g.fsize * SECTOR_SIZE
    ensures FatByte(g, PutByte12(g, vol, c, v, k), j) ==
      if j == c + c / 2 + k then NewByte(FAT12, c % 2 == 1, v, k, FatByte(g, vol, j)) else FatByte(g, vol, j)
  {
    hide NewByte, Patch, SetFatSector;
    var i := c + c / 2 + k;
    var s := g.fatbase + i / SECTOR_SIZE;
    assert (s - g.fatbase) * SECTOR_SIZE + i % SECTOR_SIZE == i;
    PatchedByte(g, vol, s, i % SECTOR_SIZE, [NewByte(FAT12, c % 2 == 1, v, k, vol[s][i % SECTOR_SIZE])], j);
  }

  lemma Stored12(g: Geo, vol: seq<Sector>, c: nat, v: nat)
    requires IsVolume(g, vol) && c < g.nFatent && g.fsType.FAT12?
    ensures EntryStored(g, vol, PutTwice(g, vol, c, v), c, v)
  {
    EntryInTable(g, c);
    var o, vol1 := c + c / 2, PutByte12(g, vol, c, v, 0);
    forall j: nat | j < g.fsize * SECTOR_SIZE
      ensures FatByte(g, PutByte12(g, vol1, c, v, 1), j) ==
        if o <= j < o + 2 then NewByte(FAT12, c % 2 == 1, v, j - o, FatByte(g, vol, j)) else FatByte(g, vol, j)
    {
      PutByte12Reads(g, vol, c, v, 0, j);
      PutByte12Reads(g, vol1, c, v, 1, j);
    }
  }

  lemma Stored16(g: Geo, vol: seq<Sector>, c: nat, v: nat)
    requires IsVolume(g, vol) && c < g.nFatent && g.fsType.FAT16?
    ensures EntryStored(g, vol, PutWide(g, vol, c, v), c, v)
  {
    hide EntryStart, EntrySector, FatByte, SetFatSector, Patch;
    EntryPlace(g, c);
    var s, o := EntrySector(g, c), EntryStart(FAT16, c);
    forall j: nat | j < g.fsize * SECTOR_SIZE
      ensures FatByte(g, PutWide(g, vol, c, v), j) ==
        if c * 2 <= j < c * 2 + 2 then NewByte(FAT16, c % 2 == 1, v, j - c * 2, FatByte(g, vol, j))
        else FatByte(g, vol, j)
    {
      PatchedByte(g, vol, s, o, WordBytes(v), j);
    }
  }

  lemma Stored32(g: Geo, vol: seq<Sector>, c: nat, v: nat)
    requires IsVolume(g, vol) && c < g.nFatent && g.fsType.FAT32?
    ensures EntryStored(g, vol, PutWide(g, vol, c, v), c, v)
  {
    hide EntryStart, EntrySector, FatByte, SetFatSector, Patch, NewByte, MergedDword, LdDword, ByteOf;
    EntryPlace(g, c);
    var s, o := EntrySector(g, c), EntryStart(FAT32, c);
    var bytes := DwordBytes(MergedDword(v, LdDword(vol[s], o)));
    forall j: nat | j < g.fsize * SECTOR_SIZE
      ensures FatByte(g, PutWide(g, vol, c, v), j) ==
        if c * 4 <= j < c * 4 + 4 then NewByte(FAT32, c % 2 == 1, v, j - c * 4, FatByte(g, vol, j))
        else FatByte(g, vol, j)
    {
      PatchedByte(g, vol, s, o, bytes, j);
      if c * 4 <= j < c * 4 + 4 {
        ByteInSector(g, vol, s, o + (j - c * 4));
        MergedDwordBytes(v, c % 2 == 1, vol[s], o, j - c * 4);
      }
    }
  }

  lemma ByteInSector(g: Geo, vol: seq<Sector>, s: nat, k: nat)
    requires IsVolume(g, vol) && g.InFat1(s) && k < SECTOR_SIZE
    ensures FatByte(g, vol, (s - g.fatbase) * SECTOR_SIZE + k) == vol[s][k]
  {
  }

  lemma PutByte12Frame(g: Geo, vol: seq<Sector>, c: nat, v: nat, k: nat)
    requires IsVolume(g, vol) && g.fsType.FAT12? && k < 2 && c + c / 2 + k < g.fsize * SECTOR_SIZE
    ensures SameOutsideFats(g, vol, PutByte12(g, vol, c, v, k))
    ensures Mirrored(g, vol) ==> Mirrored(g, PutByte12(g, vol, c, v, k))
  {
    var i := c + c / 2 + k;
    var s := g.fatbase + i / SECTOR_SIZE;
    SetSectorFrame(g, vol, s,
                   Patch(vol[s], i % SECTOR_SIZE, [NewByte(FAT12, c % 2 == 1, v, k, vol[s][i % SECTOR_SIZE])]));
  }

  lemma PutTwiceFrame(g: Geo, vol: seq<Sector>, c: nat, v: nat)
    requires IsVolume(g, vol) && c < g.nFatent && g.fsType.FAT12?
    ensures SameOutsideFats(g, vol, PutTwice(g, vol, c, v))
    ensures Mirrored(g, vol) ==> Mirrored(g, PutTwice(g, vol, c, v))
  {
    hide PutByte12;
    EntryInTable(g, c);
    PutByte12Frame(g, vol, c, v, 0);
    PutByte12Frame(g, PutByte12(g, vol, c, v, 0), c, v, 1);
  }

  /** put_fat touches nothing outside the table and keeps its copies equal. */
  lemma PutEntryFrame(g: Geo, vol: seq<Sector>, c: nat, v: nat)
    requires IsVolume(g, vol) && c < g.nFatent
    ensures SameOutsideFats(g, vol, PutEntry(g, vol, c, v))
    ensures Mirrored(g, vol) ==> Mirrored(g, PutEntry(g, vol, c, v))
  {
    hide PutTwice, StoredSector;
    if g.fsType.FAT12? {
      PutTwiceFrame(g, vol, c, v);
    } else {
      var s := EntrySector(g, c);
      EntryPlace(g, c);
      SetSectorFrame(g, vol, s, StoredSector(g.fsType, vol[s], c, v));
    }
  }

  /** Two neighbouring 12-bit entries share one byte, a nibble each. */
  lemma NeighbourKept(odd: bool, v: nat, b: byte)
    ensures !odd ==> NewByte(FAT12, odd, v, 1, b) / 16 == b / 16
    ensures odd ==> NewByte(FAT12, odd, v, 0, b) % 16 == b % 16
  {
    Nibbles(b, v % 16);
    Nibbles(b, v / 0x100 % 16);
  }

  lemma StoredEntryReads(g: Geo, vol: seq<Sector>, vol': seq<Sector>, c: nat, v: nat, d: nat)
    requires IsVolume(g, vol) && IsVolume(g, vol') && c < g.nFatent && d < g.nFatent
    requires EntryStored(g, vol, vol', c, v)
    ensures Entry(g, vol', d) == if d == c then Masked(g.fsType, v) else Entry(g, vol, d)
    ensures g.fsType.FAT32? ==> ReservedBits(g, vol', d) == ReservedBits(g, vol, d)
  {
    EntryInTable(g, c);
    EntryInTable(g, d);
    var o, p := EntryOffset(g.fsType, c), EntryOffset(g.fsType, d);
    if c == d {
      NewValue(g.fsType, c % 2 == 1, v, FatByte(g, vol, o), FatByte(g, vol, o + 1),
               if g.fsType.FAT32? then FatByte(g, vol, o + 2) else 0,
               if g.fsType.FAT32? then FatByte(g, vol, o + 3) else 0);
    } else if g.fsType.FAT12? {
      NeighbourKept(c % 2 == 1, v, FatByte(g, vol, o));
      NeighbourKept(c % 2 == 1, v, FatByte(g, vol, o + 1));
      if c % 2 == 1 && d == c - 1 {
        assert p + 1 == o;
      } else if c % 2 == 0 && d == c + 1 {
        assert p == o + 1;
      } else {
        assert p + 2 <= o || o + 2 <= p;
      }
    } else {
      assert p + Width(g.fsType) <= o || o + Width(g.fsType) <= p;
    }
  }

  /** FAT as an array: storing an entry changes that entry, to the masked value, and no other. */
  lemma PutThenGet(g: Geo, vol: seq<Sector>, c: nat, v: nat)
    requires IsVolume(g, vol) && c < g.nFatent
    ensures Fat(g, PutEntry(g, vol, c, v)) == Fat(g, vol)[c := Masked(g.fsType, v)]
    ensures g.fsType.FAT32? ==>
      forall d: nat :: d < g.nFatent ==> ReservedBits(g, PutEntry(g, vol, c, v), d) == ReservedBits(g, vol, d)
  {
    match g.fsType {
      case FAT12 => Stored12(g, vol, c, v);
      case FAT16 => Stored16(g, vol, c, v);
      case FAT32 => Stored32(g, vol, c, v);
    }
    var vol' := PutEntry(g, vol, c, v);
    forall d: nat | d < g.nFatent
      ensures Entry(g, vol', d) == if d == c then Masked(g.fsType, v) else Entry(g, vol, d)
      ensures g.fsType.FAT32? ==> ReservedBits(g, vol', d) == ReservedBits(g, vol, d)
    {
      StoredEntryReads(g, vol, vol', c, v, d);
    }
  }
}
