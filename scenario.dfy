// The call sequence of the dummy-driver demo, run against a fresh device and a
// zero-initialised superblock: every call succeeds and the bytes read back are
// the ones the sequence implies.
module Scenario {
  import opened CTypes
  import opened Wrappers
  import opened FramDriver
  import opened Layout
  import opened Filenames
  import EngineProps
  import opened Bffs

  /** "file1.txt" and "file2.txt" as bytes, without the terminator. */
  const FILE1: seq<byte> := [0x66, 0x69, 0x6c, 0x65, 0x31, 0x2e, 0x74, 0x78, 0x74]
  const FILE2: seq<byte> := [0x66, 0x69, 0x6c, 0x65, 0x32, 0x2e, 0x74, 0x78, 0x74]

  /** Slot 0 holds a 10-byte file at the very start of the data area. */
  ghost predicate File1At(fs: FileSystem)
    reads fs, fs.files, fs.fram
  {
    && fs.Valid()
    && var f := fs.files[0];
       f.startPtr == FS_OFFSET && f.endPtr == FS_OFFSET + 10 && f.readPtr <= f.endPtr && f.writePtr <= f.endPtr
  }

  /** The file system right after a reset: empty allocator over the whole usable area, every name field empty. */
  ghost predicate Emptied(fs: FileSystem, from: nat)
    reads fs, fs.files, fs.fram
  {
    && fs.Valid() && from <= MAX_FILES
    && forall j :: from <= j < MAX_FILES ==> fs.files[j].filename[0] == 0
  }

  /** Mount with reset over the whole usable area, on a fresh device. */
  method MountFresh() returns (fs: FileSystem)
    ensures fresh(fs) && fresh(fs.files) && fresh(fs.fram) && fresh(fs.fram.mem)
    ensures Emptied(fs, 0) && fs.fileIdx == 0 && fs.writePtr == FS_OFFSET && fs.endPtr == FRAM_SIZE
  {
    var fram := new Fram();
    fs := new FileSystem(fram);
    ghost var s0 := fs.St();
    var st := fs.MountFs(USABLE_SIZE as u16, FsMountOptionReset);
    EngineProps.ResetFormats(s0, USABLE_SIZE as u16);
    assert fs.files[..] == ZeroImage().files;
  }

  /** Create "file1.txt" of 10 bytes. */
  method CreateFirst(fs: FileSystem) returns (myfile1: Handle)
    requires Emptied(fs, 0) && fs.fileIdx == 0 && fs.writePtr == FS_OFFSET && fs.endPtr == FRAM_SIZE
    modifies fs, fs.files, fs.fram.mem
    ensures Emptied(fs, 1) && fs.fileIdx == 1 && fs.writePtr == FS_OFFSET + 10 && fs.endPtr == FRAM_SIZE
    ensures File1At(fs) && myfile1 == Slot(0) && fs.files[0].readPtr == fs.files[0].writePtr == FS_OFFSET
    ensures Matches(FILE1, fs.files[0].filename)
  {
    ghost var s1 := fs.St();
    forall j | 0 <= j < MAX_FILES ensures !Matches(FILE1, s1.img.files[j].filename) {
    }
    EngineProps.CreateErrorOrder(s1, FILE1, 10, Some(Null));
    var st;
    st, myfile1 := fs.CreateFile(FILE1, 10, Some(Null));
    EngineProps.CreateSucceeds(s1, FILE1, 10, Some(Null));
  }

  /** Create "file2.txt" of 10 bytes, then open it by name; both yield the same slot. */
  method CreateSecondAndOpen(fs: FileSystem) returns (reopened: bool)
    requires Emptied(fs, 1) && fs.fileIdx == 1 && fs.writePtr == FS_OFFSET + 10 && fs.endPtr == FRAM_SIZE
    requires File1At(fs) && Matches(FILE1, fs.files[0].filename)
    modifies fs, fs.files, fs.fram.mem
    ensures File1At(fs) && reopened
    ensures fs.files[0] == old(fs.files[0])
  {
    ghost var s2 := fs.St();
    forall j | 0 <= j < MAX_FILES ensures !Matches(FILE2, s2.img.files[j].filename) {
      if j == 0 {
        assert FILE1[4] != FILE2[4];
      } else {
      }
    }
    EngineProps.CreateErrorOrder(s2, FILE2, 10, Some(Null));
    var st, myfile2 := fs.CreateFile(FILE2, 10, Some(Null));
    EngineProps.CreateSucceeds(s2, FILE2, 10, Some(Null));
    EngineProps.CreateThenOpen(s2, FILE2, 10, Some(Null), Null);
    var myfile2Alt;
    st, myfile2Alt := fs.OpenFile(FILE2, Some(Null));
    reopened := myfile2Alt == myfile2;
  }

  /** Write [10, 20, 30] to the empty file. */
  method WriteThree(fs: FileSystem, myfile1: Handle)
    requires File1At(fs) && myfile1 == Slot(0) && fs.files[0].writePtr == FS_OFFSET
    modifies fs.files, fs.fram.mem
    ensures File1At(fs) && fs.fram.mem[FS_OFFSET..FS_OFFSET + 3] == [10, 20, 30]
  {
    var data := new byte[3];
    data[0], data[1], data[2] := 10, 20, 30;
    ghost var s3 := fs.St();
    EngineProps.WriteRejects(s3, myfile1, 3, Some(data[..]));
    EngineProps.WriteStores(s3, myfile1, 3, Some(data[..]));
    var st := fs.WriteFile(myfile1, 3, data);
  }

  /** Seek to byte 2 of the file. */
  method SeekTwo(fs: FileSystem, myfile1: Handle)
    requires File1At(fs) && myfile1 == Slot(0)
    modifies fs.files
    ensures File1At(fs) && fs.files[0].readPtr == FS_OFFSET + 2
    ensures fs.fram.mem[..] == old(fs.fram.mem[..])
  {
    ghost var s4 := fs.St();
    EngineProps.SeekThenTell(s4, myfile1, 2);
    var st := fs.SeekFile(myfile1, 2);
  }

  /** Read one byte at the cursor, rewinding it afterwards. */
  method ReadAtCursor(fs: FileSystem, myfile1: Handle) returns (sought: seq<byte>)
    requires File1At(fs) && myfile1 == Slot(0) && fs.files[0].readPtr == FS_OFFSET + 2
    requires fs.fram.mem[FS_OFFSET..FS_OFFSET + 3] == [10, 20, 30]
    modifies fs.files
    ensures File1At(fs) && sought == [30]
  {
    ghost var s5 := fs.St();
    var dataR := new byte[1];
    EngineProps.ReadRejects(s5, myfile1, 1, true, ReadFileResetReadPtr);
    EngineProps.ReadReturns(s5, myfile1, 1, true, ReadFileResetReadPtr);
    assert s5.dev[FS_OFFSET + 2..FS_OFFSET + 3] == [30];
    var st := fs.ReadFile(myfile1, 1, dataR, ReadFileResetReadPtr);
    sought := dataR[..];
  }

  /** Clear the file and read three bytes from its start. */
  method ClearAndRead(fs: FileSystem, myfile1: Handle) returns (cleared: seq<byte>)
    requires File1At(fs) && myfile1 == Slot(0)
    modifies fs.files, fs.fram.mem
    ensures cleared == [0, 0, 0]
  {
    ghost var s6 := fs.St();
    EngineProps.ClearEffect(s6, myfile1);
    var st := fs.ClearFile(myfile1);
    var dataR2 := new byte[3];
    EngineProps.ClearThenRead(s6, myfile1, 3);
    st := fs.ReadFile(myfile1, 3, dataR2, ReadFileResetReadPtr);
    cleared := dataR2[..];
  }

  /** The demo's whole sequence: the byte read at offset 2 is 30, and the cleared file reads back as zeros. */
  method Demo() returns (sought: seq<byte>, cleared: seq<byte>, reopened: bool)
    ensures sought == [30] && cleared == [0, 0, 0] && reopened
  {
    var fs := MountFresh();
    var myfile1 := CreateFirst(fs);
    reopened := CreateSecondAndOpen(fs);
    WriteThree(fs, myfile1);
    SeekTwo(fs, myfile1);
    sought := ReadAtCursor(fs, myfile1);
    cleared := ClearAndRead(fs, myfile1);
  }
}
