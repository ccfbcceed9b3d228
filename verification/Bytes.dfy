/**
  Bytes, sectors and the little-endian words the volume is made of.
  Machine words are plain integers; a cast that drops bits is written as a
  remainder, a shift by a constant as a multiplication or a division.
  */
module Bytes {
  const SECTOR_SIZE := 512

  type byte = x: int | 0 <= x < 0x100

  type dword = x: int | 0 <= x < 0x1_0000_0000

  type Sector = s: seq<byte> | |s| == SECTOR_SIZE witness seq(SECTOR_SIZE, _ => 0)

  const ZERO_SECTOR: Sector := seq(SECTOR_SIZE, _ => 0)

  /** The result codes the modelled operations can give (FRESULT). */
  datatype Result =
    | Ok | IntErr | NoFile | NoPath | InvalidName | Denied | Exist | InvalidObject | NoFilesystem | NotEnoughCore

  function LdWord(s: seq<byte>, i: nat): nat
    requires i + 2 <= |s|
  {
    s[i] as nat + 0x100 * (s[i + 1] as nat)
  }

  function LdDword(s: seq<byte>, i: nat): nat
    requires i + 4 <= |s|
  {
    s[i] as nat + 0x100 * (s[i + 1] as nat) + 0x1_0000 * (s[i + 2] as nat) + 0x100_0000 * (s[i + 3] as nat)
  }

  /** Byte k of a word in little-endian order. */
  function ByteOf(v: nat, k: nat): byte
    requires k < 4
  {
    if k == 0 then v % 0x100
    else if k == 1 then v / 0x100 % 0x100
    else if k == 2 then v / 0x1_0000 % 0x100
    else v / 0x100_0000 % 0x100
  }

  /** Unsigned 32-bit subtraction, as the range tests of the source use it. */
  function Sub32(a: nat, b: nat): nat {
    (a - b) % 0x1_0000_0000
  }

  lemma Sub32Range(a: nat, b: nat, n: nat)
    requires a < 0x1_0000_0000 && b + n <= 0x1_0000_0000
    ensures Sub32(a, b) < n <==> b <= a < b + n
  {
    if a < b {
      assert (a - b) % 0x1_0000_0000 == a - b + 0x1_0000_0000;
    }
  }

  /** A position advanced by whole sectors. */
  lemma WholeSectors(p: nat, cc: nat)
    requires p % SECTOR_SIZE == 0 && cc > 0
    ensures (p + SECTOR_SIZE * cc) % SECTOR_SIZE == 0
    ensures (p + SECTOR_SIZE * cc - 1) / SECTOR_SIZE == p / SECTOR_SIZE + (cc - 1)
    ensures p / SECTOR_SIZE * SECTOR_SIZE == p
  {
    var q := p / SECTOR_SIZE;
    assert p == q * SECTOR_SIZE;
    assert p + SECTOR_SIZE * cc == (q + cc) * SECTOR_SIZE;
    assert p + SECTOR_SIZE * cc - 1 == (q + cc - 1) * SECTOR_SIZE + 511;
  }

  /** A position advanced inside its sector. */
  lemma WithinSector(p: nat, n: nat)
    requires 0 < n && p % SECTOR_SIZE + n <= SECTOR_SIZE
    ensures (p + n - 1) / SECTOR_SIZE == p / SECTOR_SIZE
    ensures (p + n) % SECTOR_SIZE != 0 ==> (p + n) / SECTOR_SIZE == p / SECTOR_SIZE
    ensures p / SECTOR_SIZE * SECTOR_SIZE + p % SECTOR_SIZE == p
  {
    var q, r := p / SECTOR_SIZE, p % SECTOR_SIZE;
    assert p + n - 1 == q * SECTOR_SIZE + (r + n - 1);
    assert p + n == q * SECTOR_SIZE + (r + n);
  }

  /** The byte before a sector boundary, and before a position inside a sector. */
  lemma ByteBefore(p: nat)
    requires p > 0
    ensures (p - 1) / SECTOR_SIZE == if p % SECTOR_SIZE == 0 then p / SECTOR_SIZE - 1 else p / SECTOR_SIZE
    ensures p % SECTOR_SIZE == 0 ==> p / SECTOR_SIZE > 0
  {
    var q, r := p / SECTOR_SIZE, p % SECTOR_SIZE;
    assert p == q * SECTOR_SIZE + r;
    if r == 0 {
      assert p - 1 == (q - 1) * SECTOR_SIZE + 511;
    } else {
      assert p - 1 == q * SECTOR_SIZE + (r - 1);
    }
  }

  function WordBytes(v: nat): (s: seq<byte>)
    ensures |s| == 2
  {
    [ByteOf(v, 0), ByteOf(v, 1)]
  }

  function DwordBytes(v: nat): (s: seq<byte>)
    ensures |s| == 4
  {
    [ByteOf(v, 0), ByteOf(v, 1), ByteOf(v, 2), ByteOf(v, 3)]
  }

  /** A buffer after bytes were copied into it. */
  function Patch(s: seq<byte>, at: nat, bytes: seq<byte>): (r: seq<byte>)
    requires at + |bytes| <= |s|
    ensures |r| == |s|
  {
    s[..at] + bytes + s[at + |bytes|..]
  }

  lemma PatchAt(s: seq<byte>, at: nat, bytes: seq<byte>, k: nat)
    requires at + |bytes| <= |s| && k < |s|
    ensures Patch(s, at, bytes)[k] == if at <= k < at + |bytes| then bytes[k - at] else s[k]
  {
  }

  lemma PatchAll(s: seq<byte>, bytes: seq<byte>)
    requires |bytes| == |s|
    ensures Patch(s, 0, bytes) == bytes
  {
  }

  /** memcpy into a buffer. */
  method CopyInto(a: array<byte>, at: nat, bytes: seq<byte>)
    requires at + |bytes| <= a.Length
    modifies a
    ensures a[..] == Patch(old(a[..]), at, bytes)
  {
    forall i | 0 <= i < |bytes| {
      a[at + i] := bytes[i];
    }
  }

  /** memset of a whole buffer to zero. */
  method ClearAll(a: array<byte>)
    modifies a
    ensures a[..] == seq(a.Length, _ => 0)
  {
    forall i | 0 <= i < a.Length {
      a[i] := 0;
    }
  }
}
