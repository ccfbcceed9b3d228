/**
  The filesystem object (FATFS): a device seen through a one-sector write-back
  window, and the allocation table reached through it.
  */
module FileSystem {
  import opened Bytes
  import opened Geometry
  import opened FatTable

  /** The FSInfo sector sync_fs builds. */
  function FsInfo(free: nat, last: nat): Sector {
    var s := Patch(seq(SECTOR_SIZE, _ => 0), 510, WordBytes(0xAA55));
    Patch(Patch(Patch(Patch(s, 0, DwordBytes(0x41615252)), 484, DwordBytes(0x61417272)),
                488, DwordBytes(free)), 492, DwordBytes(last))
  }

  class Volume {
    const g: Geo
    const fsiOff: bool         // FSInfo is not in use (bit 7 of fsi_flag)
    const win: array<byte>     // the disk access window
    var disk: seq<Sector>      // the device
    var winsect: nat           // sector appearing in the window
    var wflag: bool            // the window is dirty
    var lastClst: dword          // last allocated cluster
    var freeClst: dword          // number of free clusters, if known
    var fsiDirty: bool         // FSInfo is to be updated (bit 0 of fsi_flag)

    /** A mounted volume: nothing is cached but the sector in the window. */
    constructor (g: Geo, fsiOff: bool, disk: seq<Sector>, winsect: nat, free: dword, last: dword)
      requires winsect < |disk|
      ensures this.g == g && this.fsiOff == fsiOff && this.disk == disk && this.winsect == winsect && fresh(win)
      ensures !wflag && !fsiDirty && freeClst == free && lastClst == last
      ensures IsVolume(g, disk) && Mirrored(g, disk) ==> Consistent() && Vol() == disk
      ensures IsVolume(g, disk) && Mirrored(g, disk) && (!fsiOff ==> g.fsType.FAT32? && g.volbase + 2 <= g.fatbase) ==>
        Valid() && Vol() == disk
    {
      this.g, this.fsiOff, this.disk, this.winsect := g, fsiOff, disk, winsect;
      wflag, fsiDirty, freeClst, lastClst := false, false, free, last;
      var sec := disk[winsect];
      win := new byte[SECTOR_SIZE](i requires 0 <= i < SECTOR_SIZE => sec[i]);
      new;
      assert win[..] == sec;
    }

    /** The window and the device agree enough for the logical volume to exist. */
    ghost predicate Attached()
      reads `disk, `winsect
    {
      g.Valid() && |disk| == g.devSize && win.Length == SECTOR_SIZE && winsect < g.devSize
    }

    /** The logical volume: the device as it will be once the window is written back. */
    ghost function Vol(): (vol: seq<Sector>)
      requires Attached()
      reads `disk, `winsect, `wflag, win
      ensures IsVolume(g, vol)
    {
      if !wflag then disk
      else if g.InFat1(winsect) then SetFatSector(g, disk, winsect, win[..])
      else disk[winsect := win[..]]
    }

    /**
      Nothing but the table, the sectors secs and FSInfo has changed, and the window
      shows one of these if it was moved.
      */
    twostate predicate ChangedOnly(secs: seq<nat>)
      requires Attached() && old(Attached())
      reads `disk, `winsect, `wflag, win
    {
      && (forall s: nat :: s < g.devSize && g.OutsideFats(s) && s !in secs && s != g.volbase + 1 ==>
            Vol()[s] == old(Vol())[s])
      && (winsect == old(winsect) || g.InFat1(winsect) || winsect in secs || winsect == g.volbase + 1)
    }

    /** The window and the copies of the table agree. */
    ghost predicate Consistent()
      reads `disk, `winsect, `wflag, win
      ensures Consistent() ==> Attached()
    {
      && Attached()
      && (!wflag ==> win[..] == disk[winsect])
      && (wflag ==> g.InFat1(winsect) || g.OutsideFats(winsect))
      && Mirrored(g, Vol())
    }

    /** FSInfo, if it is in use, is not a sector of the table. */
    ghost predicate Valid()
      reads `disk, `winsect, `wflag, win
      ensures Valid() ==> Consistent()
    {
      Consistent() && (!fsiOff ==> g.fsType.FAT32? && g.volbase + 2 <= g.fatbase)
    }

    /** The table of the logical volume. */
    ghost function FatSeq(): (fat: seq<nat>)
      requires Attached()
      reads `disk, `winsect, `wflag, win
      ensures |fat| == g.nFatent
    {
      Fat(g, Vol())
    }

    /** The window always shows the bytes of its sector of the logical volume. */
    lemma WindowShows()
      requires Valid()
      ensures win[..] == Vol()[winsect]
    {
    }

    /** A clean window hides nothing. */
    lemma CleanShows()
      requires Valid() && !wflag
      ensures disk == Vol()
    {
    }

    /** sync_window: write the window back, to both copies of the table if it shows the first. */
    method SyncWindow()
      requires Consistent()
      modifies `disk, `wflag
      ensures Consistent() && (old(Valid()) ==> Valid()) && Vol() == old(Vol())
      ensures !wflag && disk == Vol()
    {
      if wflag {
        var sec: Sector := win[..];
        disk := disk[winsect := sec];
        wflag := false;
        Sub32Range(winsect, g.fatbase, g.fsize);
        if Sub32(winsect, g.fatbase) < g.fsize {
          if g.nFats == 2 {
            disk := disk[winsect + g.fsize := sec];
          }
        }
      }
    }

    /** move_window: make the window show a sector of the logical volume. */
    method MoveWindow(sect: nat)
      requires Valid() && sect < g.devSize
      modifies `disk, `wflag, `winsect, win
      ensures Valid() && Vol() == old(Vol())
      ensures winsect == sect && win[..] == Vol()[sect]
      ensures wflag ==> old(wflag)
    {
      if sect != winsect {
        SyncWindow();
        var sec := disk[sect];
        forall i | 0 <= i < SECTOR_SIZE {
          win[i] := sec[i];
        }
        winsect := sect;
        assert win[..] == sec;
      }
    }

    /** The two bytes of a 12-bit entry, each through its own move of the window. */
    method FetchFat12(clst: nat) returns (val: nat)
      requires Valid() && g.InRange(clst) && g.fsType.FAT12?
      modifies `disk, `wflag, `winsect, win
      ensures Valid() && Vol() == old(Vol()) && g.InFat1(winsect)
      ensures val == Entry(g, Vol(), clst)
      ensures wflag ==> old(wflag)
    {
      hide Valid, Vol;
      EntryInTable(g, clst);
      var bc := clst + clst / 2;
      MoveWindow(g.fatbase + bc / SECTOR_SIZE);
      var b0 := win[bc % SECTOR_SIZE];
      MoveWindow(g.fatbase + (bc + 1) / SECTOR_SIZE);
      var b1 := win[(bc + 1) % SECTOR_SIZE];
      EntryFromSector12(g, Vol(), clst, b0, b1);
      var wc := b0 as nat + b1 as nat * 0x100;
      val := if clst % 2 == 1 then wc / 16 else wc % 0x1000;
    }

    /** A wider entry is a word or a masked dword of one sector. */
    method FetchWide(clst: nat) returns (val: nat)
      requires Valid() && g.InRange(clst) && !g.fsType.FAT12?
      modifies `disk, `wflag, `winsect, win
      ensures Valid() && Vol() == old(Vol()) && g.InFat1(winsect)
      ensures val == Entry(g, Vol(), clst)
      ensures wflag ==> old(wflag)
    {
      hide Valid, Vol, Entry, LdWord, LdDword;
      EntryFromSector(g, Vol(), clst);
      if g.fsType.FAT16? {
        MoveWindow(g.fatbase + clst / (SECTOR_SIZE / 2));
        val := LdWord(win[..], clst * 2 % SECTOR_SIZE);
      } else {
        MoveWindow(g.fatbase + clst / (SECTOR_SIZE / 4));
        val := LdDword(win[..], clst * 4 % SECTOR_SIZE) % 0x1000_0000;
      }
    }

    /** get_fat: 1 when the number is out of range. */
    method GetFat(clst: nat) returns (val: nat)
      requires Valid()
      modifies `disk, `wflag, `winsect, win
      ensures Valid() && Vol() == old(Vol())
      ensures val == if g.InRange(clst) then FatSeq()[clst] else 1
      ensures if g.InRange(clst) then g.InFat1(winsect) else winsect == old(winsect)
      ensures wflag ==> old(wflag)
    {
      hide Valid, Vol, Entry;
      if clst < 2 || clst >= g.nFatent {
        return 1;
      }
      if g.fsType.FAT12? {
        val := FetchFat12(clst);
      } else {
        val := FetchWide(clst);
      }
    }

    /** Store bytes into the window and mark it dirty. */
    method EditWindow(at: nat, bytes: seq<byte>)
      requires Valid() && at + |bytes| <= SECTOR_SIZE && (g.InFat1(winsect) || g.OutsideFats(winsect))
      modifies `wflag, win
      ensures Valid() && win[..] == Patch(old(win[..]), at, bytes)
      ensures Vol() == SetSector(g, old(Vol()), winsect, Patch(old(Vol())[winsect], at, bytes))
    {
      ghost var vol := Vol();
      assert vol[winsect] == win[..];
      CopyInto(win, at, bytes);
      wflag := true;
      SetSectorFrame(g, vol, winsect, win[..]);
      assert Vol() == SetSector(g, vol, winsect, win[..]);
    }

    /** One byte of a 12-bit store: move the window to it, change it. */
    method StoreByte12(clst: nat, val: nat, k: nat)
      requires Valid() && g.fsType.FAT12? && k < 2 && clst + clst / 2 + k < g.fsize * SECTOR_SIZE
      modifies `disk, `wflag, `winsect, win
      ensures Valid() && g.InFat1(winsect)
      ensures Vol() == PutByte12(g, old(Vol()), clst, val, k)
    {
      hide Vol, Valid, NewByte, Patch, SetFatSector;
      var bc := clst + clst / 2 + k;
      MoveWindow(g.fatbase + bc / SECTOR_SIZE);
      EditWindow(bc % SECTOR_SIZE, [NewByte(FAT12, clst % 2 == 1, val, k, win[bc % SECTOR_SIZE])]);
    }

    method StoreFat12(clst: nat, val: nat)
      requires Valid() && g.InRange(clst) && g.fsType.FAT12?
      modifies `disk, `wflag, `winsect, win
      ensures Valid() && g.InFat1(winsect) && Vol() == PutTwice(g, old(Vol()), clst, val)
    {
      hide Valid, Vol, PutByte12;
      EntryInTable(g, clst);
      StoreByte12(clst, val, 0);
      StoreByte12(clst, val, 1);
    }

    /** A 16-bit or 28-bit store rewrites bytes of one sector. */
    method StoreWide(clst: nat, val: nat)
      requires Valid() && g.InRange(clst) && !g.fsType.FAT12?
      modifies `disk, `wflag, `winsect, win
      ensures Valid() && g.InFat1(winsect) && Vol() == PutWide(g, old(Vol()), clst, val)
    {
      hide Valid, Vol, MergedDword, LdDword, Patch;
      EntryPlace(g, clst);
      if g.fsType.FAT16? {
        MoveWindow(g.fatbase + clst / (SECTOR_SIZE / 2));
        EditWindow(clst * 2 % SECTOR_SIZE, WordBytes(val));
      } else {
        MoveWindow(g.fatbase + clst / (SECTOR_SIZE / 4));
        var o := clst * 4 % SECTOR_SIZE;
        EditWindow(o, DwordBytes(MergedDword(val, LdDword(win[..], o))));
      }
    }

    /** put_fat: an internal error when the number is out of range. */
    method PutFat(clst: nat, val: nat) returns (res: Result)
      requires Valid()
      modifies `disk, `wflag, `winsect, win
      ensures Valid() && SameOutsideFats(g, old(Vol()), Vol())
      ensures res == if g.InRange(clst) then Ok else IntErr
      ensures g.InRange(clst) ==> FatSeq() == old(FatSeq())[clst := Masked(g.fsType, val)] && g.InFat1(winsect)
      ensures !g.InRange(clst) ==> Vol() == old(Vol()) && winsect == old(winsect)
    {
      hide Valid, Vol, Masked, Fat, PutWide, PutTwice;
      res := IntErr;
      if clst >= 2 && clst < g.nFatent {
        if g.fsType.FAT12? {
          StoreFat12(clst, val);
        } else {
          StoreWide(clst, val);
        }
        PutThenGet(g, old(Vol()), clst, val);
        PutEntryFrame(g, old(Vol()), clst, val);
        res := Ok;
      }
    }

    /** The volume after sync_fs: FSInfo is rewritten when it is in use and out of date. */
    ghost function SyncedVol(): (vol: seq<Sector>)
      requires Attached()
      reads `disk, `winsect, `wflag, `fsiDirty, `freeClst, `lastClst, win
    {
      if g.fsType.FAT32? && !fsiOff && fsiDirty then
        Vol()[g.volbase + 1 := FsInfo(freeClst, lastClst)]
      else Vol()
    }

    /** sync_fs: everything cached is on the device afterwards. */
    method SyncFs()
      requires Consistent()
      modifies `disk, `wflag, `winsect, `fsiDirty, win
      ensures Attached() && (old(Valid()) ==> Valid()) && !wflag
      ensures disk == Vol() == old(SyncedVol())
      ensures g.fsType.FAT32? && fsiDirty ==> fsiOff
      ensures winsect == if g.fsType.FAT32? && !fsiOff && old(fsiDirty) then g.volbase + 1 else old(winsect)
    {
      SyncWindow();
      if g.fsType.FAT32? && !fsiOff && fsiDirty {
        WriteFsInfo();
      }
    }

    /** The FSInfo sector is built in the window and written from there. */
    method WriteFsInfo()
      requires Attached() && !wflag && !fsiOff
      modifies `disk, `winsect, `fsiDirty, win
      ensures Attached() && (old(Valid()) ==> Valid()) && !wflag && winsect == g.volbase + 1 && !fsiDirty
      ensures disk == Vol() == old(disk)[g.volbase + 1 := FsInfo(freeClst, lastClst)]
    {
      BuildFsInfo();
      winsect := g.volbase + 1;
      disk := disk[winsect := win[..]];
      fsiDirty := false;
    }

    method BuildFsInfo()
      requires win.Length == SECTOR_SIZE
      modifies win
      ensures win[..] == FsInfo(freeClst, lastClst)
    {
      hide Patch, DwordBytes, WordBytes;
      ClearAll(win);
      CopyInto(win, 510, WordBytes(0xAA55));
      CopyInto(win, 0, DwordBytes(0x41615252));
      CopyInto(win, 484, DwordBytes(0x61417272));
      CopyInto(win, 488, DwordBytes(freeClst));
      CopyInto(win, 492, DwordBytes(lastClst));
    }
  }
}
