// B-FRAM-FileSystem.c as the source runs it: the superblock global is an object
// whose fields the operations update in place, over the shared FRAM device.
// Every method is proved to end in the state (and status) that the matching
// function of module Engine computes.
module Bffs {
  import opened CTypes
  import opened Wrappers
  import opened FramDriver
  import opened Layout
  import opened Superblock
  import opened Filenames
  import Engine

  /** The global BFFS struct together with the FRAM device it lives on. */
  class FileSystem {
    const fram: Fram
    /** BFFS.files: the MAX_FILES slot records. */
    const files: array<FileRec>
    var fileIdx: u16
    var writePtr: u16
    var endPtr: u16
    var startPtr: u16

    ghost predicate Valid()
      reads this, files, fram
    {
      files.Length == MAX_FILES && fram.mem.Length == FRAM_SIZE
    }

    /** The struct's value. */
    function Img(): Image
      requires files.Length == MAX_FILES
      reads this, files
    {
      Image(files[..], fileIdx, writePtr, endPtr, startPtr)
    }

    /** The struct's value and the device contents. */
    ghost function St(): Engine.State
      requires files.Length == MAX_FILES
      reads this, files, fram, fram.mem
    {
      Engine.State(Img(), fram.mem[..])
    }

    /** The zero-initialised global over a device. */
    constructor (fram: Fram)
      requires fram.mem.Length == FRAM_SIZE
      ensures Valid() && this.fram == fram && fresh(files) && Img() == ZeroImage()
    {
      this.fram := fram;
      files := new FileRec[MAX_FILES](_ => EmptySlot());
      fileIdx, writePtr, endPtr, startPtr := 0, 0, 0, 0;
      new;
      assert files[..] == seq(MAX_FILES, _ => EmptySlot());
    }

    /** save_fs */
    method SaveFs() returns (st: Status)
      requires Valid()
      modifies fram.mem
      ensures Valid() && St() == Engine.SaveFs(old(St())) && st == SaveFsSuccess
    {
      var bytes := EncodeImage(Img());
      var buf := new byte[FS_SIZE](i => if 0 <= i < |bytes| then bytes[i] else 0);
      assert buf[..FS_SIZE] == bytes;
      fram.Write(0, FS_SIZE, buf);
      st := SaveFsSuccess;
    }

    /** load_fs */
    method LoadFs() returns (st: Status)
      requires Valid()
      modifies this, files
      ensures Valid() && Engine.LoadFs(old(St())) == Engine.Outcome(st, St())
    {
      ghost var s := St();
      var buf := new byte[FS_SIZE];
      ghost var before := buf[..];
      fram.Read(0, FS_SIZE, buf);
      assert buf[..] == fram.mem[..FS_SIZE] by {
        var w := Written(before, 0, fram.mem[0..FS_SIZE]);
        assert w == w[0..FS_SIZE];
      }
      var img := DecodeImage(buf[..]);
      assert Engine.LoadFs(s) == Engine.Outcome(Engine.CheckFs(img), s.(img := img));
      forall i | 0 <= i < MAX_FILES {
        files[i] := img.files[i];
      }
      assert files[..] == img.files;
      fileIdx, writePtr, endPtr, startPtr := img.fileIdx, img.writePtr, img.endPtr, img.startPtr;
      assert St() == s.(img := img);
      if endPtr > FRAM_SIZE {
        return MountFsInvalidFs;
      }
      if writePtr > endPtr {
        return MountFsInvalidFs;
      }
      if fileIdx > MAX_FILES {
        return MountFsInvalidFs;
      }
      if startPtr > writePtr {
        return MountFsInvalidFs;
      }
      return MountFsSuccess;
    }

    /** reset_fs */
    method ResetFs(fsSize: u16) returns (st: Status)
      requires Valid()
      modifies this, fram.mem
      ensures Valid() && Engine.ResetFs(old(St()), fsSize) == Engine.Outcome(st, St())
    {
      if fsSize > USABLE_SIZE {
        return MountFsNoMemory;
      }
      fileIdx := 0;
      startPtr := FS_OFFSET;
      writePtr := FS_OFFSET;
      endPtr := startPtr + fsSize;
      var saved := SaveFs();
      return MountFsSuccess;
    }

    /** mount_fs */
    method MountFs(fsSize: u16, option: MountOption) returns (st: Status)
      requires Valid()
      modifies this, files, fram.mem
      ensures Valid() && Engine.MountFs(old(St()), fsSize, option) == Engine.Outcome(st, St())
    {
      match option
      case FsMountOptionLoad =>
        st := LoadFs();
      case FsMountOptionReset =>
        st := ResetFs(fsSize);
    }

    /** The slot scan of create_file and open_file: the first slot whose name field strcmp-equals the name. */
    method SearchSlots(name: seq<byte>) returns (found: Option<nat>)
      requires Valid() && IsCString(name) && |name| < MAX_FILENAME_SIZE
      ensures found == Engine.FindFrom(files[..], name, 0)
      ensures found.Some? ==> found.value < MAX_FILES && Matches(name, files[found.value].filename)
      ensures found.None? ==> forall j :: 0 <= j < MAX_FILES ==> !Matches(name, files[j].filename)
    {
      var i := 0;
      while i < MAX_FILES
        invariant i <= MAX_FILES
        invariant Engine.FindFrom(files[..], name, i) == Engine.FindFrom(files[..], name, 0)
      {
        StrcmpMatches(name, files[i].filename);
        if StrcmpEqual(name, files[i].filename) {
          return Some(i);
        }
        i := i + 1;
      }
      return None;
    }

    /** The success path of create_file: slot file_idx takes the name and the next `size` bytes, then the struct is saved. */
    method Allocate(name: seq<byte>, size: u16, filePtrPtr: Option<Handle>) returns (filePtr: Handle)
      requires Valid() && IsCString(name) && |name| < MAX_FILENAME_SIZE && filePtrPtr.Some?
      requires fileIdx < MAX_FILES && Engine.FindFrom(files[..], name, 0).None?
      requires 0 < size && size + writePtr <= endPtr
      modifies this, files, fram.mem
      ensures Valid()
      ensures Engine.CreateFile(old(St()), name, size, filePtrPtr) == Engine.HandleOutcome(CreateFileSuccess, St(), filePtr)
    {
      ghost var s := St();
      var i := fileIdx;
      var rec := FileRec(StoreName(name, files[i].filename), writePtr, writePtr, writePtr, writePtr + size);
      files[i] := rec;
      filePtr := Slot(i);
      fileIdx := fileIdx + 1;
      writePtr := writePtr + size;
      assert St() == s.(img := s.img.(files := s.img.files[i := rec], fileIdx := i + 1, writePtr := s.img.writePtr + size));
      var saved := SaveFs();
    }

    /**
     * create_file. `filePtrPtr` is the caller's `file_t**`: None for NULL, else the
     * value the caller's variable holds; `filePtr` is what that variable holds afterwards.
     */
    method CreateFile(name: seq<byte>, size: u16, filePtrPtr: Option<Handle>) returns (st: Status, filePtr: Handle)
      requires Valid() && IsCString(name) && |name| != MAX_FILENAME_SIZE
      modifies this, files, fram.mem
      ensures Valid()
      ensures Engine.CreateFile(old(St()), name, size, filePtrPtr) == Engine.HandleOutcome(st, St(), filePtr)
    {
      if filePtrPtr.None? {
        return CreateFileInvalidFilePtr, Null;
      }
      filePtr := filePtrPtr.value;
      if fileIdx >= MAX_FILES {
        return CreateFileNoFileSlots, filePtr;
      }
      var temp := CopyName(name);
      if temp.None? {
        return CreateFileBadFilename, filePtr;
      }
      var taken := SearchSlots(name);
      if taken.Some? {
        return CreateFileFilenameTaken, filePtr;
      }
      if size == 0 {
        return CreateFileBadSize, filePtr;
      }
      if size + writePtr > endPtr {
        return CreateFileFileTooLarge, filePtr;
      }
      filePtr := Allocate(name, size, filePtrPtr);
      st := CreateFileSuccess;
    }

    /** open_file */
    method OpenFile(name: seq<byte>, filePtrPtr: Option<Handle>) returns (st: Status, filePtr: Handle)
      requires Valid() && IsCString(name) && |name| < MAX_FILENAME_SIZE
      modifies files
      ensures Valid()
      ensures Engine.OpenFile(old(St()), name, filePtrPtr) == Engine.HandleOutcome(st, St(), filePtr)
    {
      if filePtrPtr.None? {
        return OpenFileInvalidFilePtr, Null;
      }
      filePtr := filePtrPtr.value;
      var found := SearchSlots(name);
      if found.None? {
        return OpenFileFileNotFound, filePtr;
      }
      var i := found.value;
      files[i] := files[i].(readPtr := files[i].startPtr);
      return OpenFileSuccess, Slot(i);
    }

    /** write_file. `data` is the caller's buffer, null or holding at least `len` bytes. */
    method WriteFile(filePtr: Handle, len: u16, data: array?<byte>) returns (st: Status)
      requires Valid() && HandleOk(filePtr)
      requires data != null ==> len <= data.Length && data != fram.mem
      requires Engine.WriteInDevice(Img(), filePtr, len, data != null)
      modifies files, fram.mem
      ensures Valid()
      ensures Engine.WriteFile(old(St()), filePtr, len, if data == null then None else Some(data[..]))
              == Engine.Outcome(st, St())
    {
      if filePtr.Null? {
        return WriteFileInvalidFilePtr;
      }
      if data == null {
        return WriteFileInvalidDataPtr;
      }
      if len == 0 {
        return WriteFileBadLength;
      }
      var f := files[filePtr.index];
      // The full sum, not its 16-bit truncation: see Engine.OverflowsAsWritten.
      var writeEndPtr := f.writePtr + len;
      if writeEndPtr > f.endPtr {
        return WriteFileOverflow;
      }
      ghost var s := St();
      fram.Write(f.writePtr, len, data);
      assert data[..][..len] == data[..len];
      ghost var dev := Written(s.dev, f.writePtr, data[..][..len]);
      assert fram.mem[..] == dev;
      var f' := f.(writePtr := f.writePtr + len);
      files[filePtr.index] := f';
      assert St() == Engine.State(s.img.(files := s.img.files[filePtr.index := f']), dev);
      var saved := SaveFs();
      return WriteFileSuccess;
    }

    /** read_file. `dest` is the caller's buffer, null or with room for `len` bytes. */
    method ReadFile(filePtr: Handle, len: u16, dest: array?<byte>, option: ReadFileOption) returns (st: Status)
      requires Valid() && HandleOk(filePtr)
      requires dest != null ==> len <= dest.Length && dest != fram.mem
      requires Engine.ReadInDevice(Img(), filePtr, len, dest != null)
      modifies files, dest
      ensures Valid()
      ensures var r := Engine.ReadFile(old(St()), filePtr, len, dest != null, option);
        && r.status == st && r.state == St()
        && (dest != null ==> dest[..] == Written(old(dest[..]), 0, r.data))
    {
      if filePtr.Null? {
        return ReadFileInvalidFilePtr;
      }
      if dest == null {
        return ReadFileInvalidDataPtr;
      }
      if len == 0 {
        WrittenNothing(dest[..], 0);
        return ReadFileBadLength;
      }
      var f := files[filePtr.index];
      // The full sum, not its 16-bit truncation: see Engine.OverflowsAsWritten.
      var readEndPtr := f.readPtr + len;
      if readEndPtr > f.endPtr {
        WrittenNothing(dest[..], 0);
        return ReadFileOverflow;
      }
      ghost var s := St();
      fram.Read(f.readPtr, len, dest);
      var f' := if option == ReadFileResetReadPtr then f.(readPtr := f.startPtr) else f;
      files[filePtr.index] := f';
      assert St() == s.(img := s.img.(files := s.img.files[filePtr.index := f']));
      return ReadFileSuccess;
    }

    /** The zeroing loop of clear_file: one single-byte device write of a zero per byte of the region. */
    method ZeroRegion(start: nat, n: nat)
      requires Valid() && start + n <= FRAM_SIZE
      modifies fram.mem
      ensures fram.mem[..] == Written(old(fram.mem[..]), start, Zeros(n))
    {
      var zero := new byte[1](_ => 0);
      var idx: nat := 0;
      ghost var orig := fram.mem[..];
      WrittenNothing(orig, start);
      while idx < n
        invariant idx <= n
        invariant fram.mem[..] == Written(orig, start, Zeros(idx))
        invariant zero[..] == [0]
        modifies fram.mem
      {
        ghost var before := fram.mem[..];
        fram.Write(start + idx, 1, zero);
        assert fram.mem[..] == Written(before, start + |Zeros(idx)|, [0]);
        WrittenAppend(orig, start, Zeros(idx), 0);
        assert Zeros(idx) + [0] == Zeros(idx + 1);
        idx := idx + 1;
      }
    }

    /** clear_file */
    method ClearFile(filePtr: Handle) returns (st: Status)
      requires Valid() && HandleOk(filePtr)
      requires filePtr.Slot? ==> files[filePtr.index].startPtr <= files[filePtr.index].endPtr <= FRAM_SIZE
      modifies files, fram.mem
      ensures Valid() && Engine.ClearFile(old(St()), filePtr) == Engine.Outcome(st, St())
    {
      if filePtr.Null? {
        return ClearFileInvalidFilePtr;
      }
      ghost var s := St();
      var f := files[filePtr.index];
      ZeroRegion(f.startPtr, f.endPtr - f.startPtr);
      ghost var dev := Written(s.dev, f.startPtr, Zeros(f.endPtr - f.startPtr));
      assert fram.mem[..] == dev;
      var f' := f.(readPtr := f.startPtr, writePtr := f.startPtr);
      files[filePtr.index] := f';
      assert St() == Engine.State(s.img.(files := s.img.files[filePtr.index := f']), dev);
      var saved := SaveFs();
      return ClearFileSuccess;
    }

    /** seek_file */
    method SeekFile(filePtr: Handle, byte: u16) returns (st: Status)
      requires Valid() && HandleOk(filePtr)
      modifies files
      ensures Valid() && Engine.SeekFile(old(St()), filePtr, byte) == Engine.Outcome(st, St())
    {
      if filePtr.Null? {
        return SeekFileInvalidFilePtr;
      }
      var f := files[filePtr.index];
      if f.startPtr + byte > f.endPtr {
        return SeekFileOverflow;
      }
      files[filePtr.index] := f.(readPtr := f.startPtr + byte);
      return SeekFileSuccess;
    }
  }
}
