// The engine of B-FRAM-FileSystem.c as functions of its state: the superblock
// global (an Image) and the device contents. The class in bffs.dfy runs the
// same operations step by step and is proved equal to these functions; the
// lemmas in engine_props.dfy state what the operations promise.
module Engine {
  import opened CTypes
  import opened Wrappers
  import opened FramDriver
  import opened Layout
  import opened Superblock
  import opened Filenames

  /** What the engine can observe and change: the superblock global and the device bytes. */
  datatype State = State(img: Image, dev: seq<byte>)

  /** The device has its fixed size. */
  predicate Shaped(s: State) {
    |s.dev| == FRAM_SIZE
  }

  datatype Outcome = Outcome(status: Status, state: State)
  /** `handle` is what the caller's `file_t*` variable holds afterwards. */
  datatype HandleOutcome = HandleOutcome(status: Status, state: State, handle: Handle)
  /** `data` is what lands in the caller's buffer (nothing on an error). */
  datatype ReadOutcome = ReadOutcome(status: Status, state: State, data: seq<byte>)

  // ---------------------------------------------------------------- superblock

  /** save_fs: the struct's byte image overwrites device addresses [0, FS_SIZE). */
  function SaveFs(s: State): (r: State)
    requires Shaped(s)
    ensures Shaped(r) && r.img == s.img
    ensures r.dev[..FS_SIZE] == EncodeImage(s.img) && r.dev[FS_SIZE..] == s.dev[FS_SIZE..]
  {
    s.(dev := Written(s.dev, 0, EncodeImage(s.img)))
  }

  /** The four facts load_fs checks. */
  predicate HeaderOk(img: Image) {
    img.endPtr <= FRAM_SIZE && img.writePtr <= img.endPtr && img.fileIdx <= MAX_FILES && img.startPtr <= img.writePtr
  }

  /** load_fs's validation, in the order the source checks. */
  function CheckFs(img: Image): (st: Status)
    ensures st == MountFsSuccess <==> HeaderOk(img)
    ensures st != MountFsSuccess ==> st == MountFsInvalidFs
  {
    if img.endPtr > FRAM_SIZE then MountFsInvalidFs
    else if img.writePtr > img.endPtr then MountFsInvalidFs
    else if img.fileIdx > MAX_FILES then MountFsInvalidFs
    else if img.startPtr > img.writePtr then MountFsInvalidFs
    else MountFsSuccess
  }

  /** load_fs: the struct is replaced by the decoded device prefix, whether or not it then validates. */
  function LoadFs(s: State): (r: Outcome)
    requires Shaped(s)
    ensures Shaped(r.state) && r.state.dev == s.dev
    ensures r.status == CheckFs(r.state.img)
  {
    var img := DecodeImage(s.dev[..FS_SIZE]);
    Outcome(CheckFs(img), s.(img := img))
  }

  /** reset_fs: refuses an area larger than the usable bytes, else empties the allocator (not the slots) and saves. */
  function ResetFs(s: State, fsSize: u16): (r: Outcome)
    requires Shaped(s)
    ensures Shaped(r.state) && r.state.img.files == s.img.files
  {
    if fsSize > USABLE_SIZE then Outcome(MountFsNoMemory, s)
    else
      var img := s.img.(fileIdx := 0, startPtr := FS_OFFSET, writePtr := FS_OFFSET, endPtr := FS_OFFSET + fsSize);
      Outcome(MountFsSuccess, SaveFs(s.(img := img)))
  }

  /** mount_fs: dispatches on the option; MOUNT_FS_BAD_OPTION is never produced. */
  function MountFs(s: State, fsSize: u16, option: MountOption): (r: Outcome)
    requires Shaped(s)
    ensures Shaped(r.state)
    ensures r.status in {MountFsSuccess, MountFsNoMemory, MountFsInvalidFs}
  {
    match option
    case FsMountOptionLoad => LoadFs(s)
    case FsMountOptionReset => ResetFs(s, fsSize)
  }

  // ------------------------------------------------------------------ lookup

  /** The name-comparison loop: the first slot at or after `from` whose name field strcmp-equals the query. */
  function FindFrom(files: seq<FileRec>, name: seq<byte>, from: nat): (r: Option<nat>)
    requires |name| < MAX_FILENAME_SIZE && from <= |files|
    ensures r.Some? ==> from <= r.value < |files| && Matches(name, files[r.value].filename)
    ensures r.Some? ==> forall j :: from <= j < r.value ==> !Matches(name, files[j].filename)
    ensures r.None? ==> forall j :: from <= j < |files| ==> !Matches(name, files[j].filename)
    decreases |files| - from
  {
    if from == |files| then None
    else if Matches(name, files[from].filename) then Some(from)
    else FindFrom(files, name, from + 1)
  }

  /** Some slot, allocated or not, holds the name. */
  predicate NameInUse(files: seq<FileRec>, name: seq<byte>)
    requires |name| < MAX_FILENAME_SIZE
  {
    exists i :: 0 <= i < |files| && Matches(name, files[i].filename)
  }

  // -------------------------------------------------------------- allocation

  /** create_file: the guard chain, then slot `file_idx` gets the next `size` bytes of the allocator. */
  function CreateFile(s: State, name: seq<byte>, size: u16, out: Option<Handle>): (r: HandleOutcome)
    requires Shaped(s) && IsCString(name) && |name| != MAX_FILENAME_SIZE
    ensures Shaped(r.state)
    ensures r.status == CreateFileSuccess ==> r.handle.Slot? && HandleOk(r.handle)
  {
    var img := s.img;
    if out.None? then HandleOutcome(CreateFileInvalidFilePtr, s, Null)
    else if img.fileIdx >= MAX_FILES then HandleOutcome(CreateFileNoFileSlots, s, out.value)
    else if |name| > MAX_FILENAME_SIZE then HandleOutcome(CreateFileBadFilename, s, out.value)
    else if FindFrom(img.files, name, 0).Some? then HandleOutcome(CreateFileFilenameTaken, s, out.value)
    else if size == 0 then HandleOutcome(CreateFileBadSize, s, out.value)
    else if size + img.writePtr > img.endPtr then HandleOutcome(CreateFileFileTooLarge, s, out.value)
    else
      var i := img.fileIdx;
      var rec := FileRec(StoreName(name, img.files[i].filename),
                         img.writePtr, img.writePtr, img.writePtr, img.writePtr + size);
      var img' := img.(files := img.files[i := rec], fileIdx := i + 1, writePtr := img.writePtr + size);
      HandleOutcome(CreateFileSuccess, SaveFs(s.(img := img')), Slot(i))
  }

  /** open_file: the first slot holding the name gets its read pointer rewound; nothing is saved. */
  function OpenFile(s: State, name: seq<byte>, out: Option<Handle>): (r: HandleOutcome)
    requires Shaped(s) && IsCString(name) && |name| < MAX_FILENAME_SIZE
    ensures Shaped(r.state) && r.state.dev == s.dev
  {
    if out.None? then HandleOutcome(OpenFileInvalidFilePtr, s, Null)
    else match FindFrom(s.img.files, name, 0)
      case None => HandleOutcome(OpenFileFileNotFound, s, out.value)
      case Some(i) =>
        var f := s.img.files[i];
        HandleOutcome(OpenFileSuccess, s.(img := s.img.(files := s.img.files[i := f.(readPtr := f.startPtr)])), Slot(i))
  }

  // ----------------------------------------------------------------- cursors

  /** The overflow test of write_file and read_file, on the full sum of pointer and length. */
  predicate Overflows(ptr: u16, len: u16, end: u16) {
    ptr + len > end
  }

  /** The same test as the source writes it: the sum is first stored in a uint16_t. */
  predicate OverflowsAsWritten(ptr: u16, len: u16, end: u16) {
    Trunc16(ptr + len) > end
  }

  /**
   * write_FRAM has no bounds check: a write that passes write_file's guards
   * must lie inside the device, or the source indexes past the FRAM array.
   */
  predicate WriteInDevice(img: Image, h: Handle, len: u16, hasData: bool)
    requires HandleOk(h)
  {
    (h.Slot? && hasData && len > 0 && !Overflows(img.files[h.index].writePtr, len, img.files[h.index].endPtr))
      ==> img.files[h.index].writePtr + len <= FRAM_SIZE
  }

  /** The same for read_FRAM after read_file's guards. */
  predicate ReadInDevice(img: Image, h: Handle, len: u16, hasBuffer: bool)
    requires HandleOk(h)
  {
    (h.Slot? && hasBuffer && len > 0 && !Overflows(img.files[h.index].readPtr, len, img.files[h.index].endPtr))
      ==> img.files[h.index].readPtr + len <= FRAM_SIZE
  }

  /** write_file: the guard chain, then the bytes go to the device at the write pointer, which advances; then save. */
  function WriteFile(s: State, h: Handle, len: u16, data: Option<seq<byte>>): (r: Outcome)
    requires Shaped(s) && HandleOk(h)
    requires data.Some? ==> len <= |data.value|
    requires WriteInDevice(s.img, h, len, data.Some?)
    ensures Shaped(r.state)
    ensures r.status != WriteFileSuccess ==> r.state == s
    ensures r.status == WriteFileSuccess ==>
      && h.Slot? && data.Some? && 0 < len
      && var f := s.img.files[h.index];
      && f.writePtr + len <= f.endPtr
      && r.state.img == s.img.(files := s.img.files[h.index := f.(writePtr := f.writePtr + len)])
      && r.state.dev[..FS_SIZE] == EncodeImage(r.state.img)
  {
    if h.Null? then Outcome(WriteFileInvalidFilePtr, s)
    else if data.None? then Outcome(WriteFileInvalidDataPtr, s)
    else if len == 0 then Outcome(WriteFileBadLength, s)
    else
      var f := s.img.files[h.index];
      if Overflows(f.writePtr, len, f.endPtr) then Outcome(WriteFileOverflow, s)
      else
        var dev := Written(s.dev, f.writePtr, data.value[..len]);
        var img := s.img.(files := s.img.files[h.index := f.(writePtr := f.writePtr + len)]);
        Outcome(WriteFileSuccess, SaveFs(State(img, dev)))
  }

  /** read_file: the same guard chain on the read pointer, then the bytes at the read pointer; nothing is saved. */
  function ReadFile(s: State, h: Handle, len: u16, hasBuffer: bool, option: ReadFileOption): (r: ReadOutcome)
    requires Shaped(s) && HandleOk(h)
    requires ReadInDevice(s.img, h, len, hasBuffer)
    ensures Shaped(r.state) && r.state.dev == s.dev && |r.data| <= len
  {
    if h.Null? then ReadOutcome(ReadFileInvalidFilePtr, s, [])
    else if !hasBuffer then ReadOutcome(ReadFileInvalidDataPtr, s, [])
    else if len == 0 then ReadOutcome(ReadFileBadLength, s, [])
    else
      var f := s.img.files[h.index];
      if Overflows(f.readPtr, len, f.endPtr) then ReadOutcome(ReadFileOverflow, s, [])
      else
        var f' := if option == ReadFileResetReadPtr then f.(readPtr := f.startPtr) else f;
        ReadOutcome(ReadFileSuccess, s.(img := s.img.(files := s.img.files[h.index := f'])),
                    s.dev[f.readPtr..f.readPtr + len])
  }

  /** clear_file: zeroes every byte of the file's region, rewinds both cursors, then saves. */
  function ClearFile(s: State, h: Handle): (r: Outcome)
    requires Shaped(s) && HandleOk(h)
    requires h.Slot? ==> s.img.files[h.index].startPtr <= s.img.files[h.index].endPtr <= FRAM_SIZE
    ensures Shaped(r.state)
    ensures r.status == ClearFileSuccess <==> h.Slot?
    ensures h.Null? ==> r.status == ClearFileInvalidFilePtr && r.state == s
    ensures h.Slot? ==>
      && var f := s.img.files[h.index];
      && r.state.img == s.img.(files := s.img.files[h.index := f.(readPtr := f.startPtr, writePtr := f.startPtr)])
      && r.state.dev[..FS_SIZE] == EncodeImage(r.state.img)
  {
    if h.Null? then Outcome(ClearFileInvalidFilePtr, s)
    else
      var f := s.img.files[h.index];
      var dev := Written(s.dev, f.startPtr, Zeros(f.endPtr - f.startPtr));
      var img := s.img.(files := s.img.files[h.index := f.(readPtr := f.startPtr, writePtr := f.startPtr)]);
      Outcome(ClearFileSuccess, SaveFs(State(img, dev)))
  }

  /** seek_file: moves only the read pointer to `byte` bytes past the file's start; nothing is saved. */
  function SeekFile(s: State, h: Handle, byte: u16): (r: Outcome)
    requires Shaped(s) && HandleOk(h)
    ensures Shaped(r.state) && r.state.dev == s.dev
  {
    if h.Null? then Outcome(SeekFileInvalidFilePtr, s)
    else
      var f := s.img.files[h.index];
      if f.startPtr + byte > f.endPtr then Outcome(SeekFileOverflow, s)
      else Outcome(SeekFileSuccess, s.(img := s.img.(files := s.img.files[h.index := f.(readPtr := f.startPtr + byte)])))
  }

  // ------------------------------------------------------- introspection

  /** tell_file: the read position relative to the file's start (uint16 subtraction). */
  function TellFile(f: FileRec): (r: u16)
    ensures f.startPtr <= f.readPtr ==> f.startPtr + r == f.readPtr
  {
    Trunc16(f.readPtr - f.startPtr)
  }

  /** get_fs_free_bytes */
  function FsFreeBytes(img: Image): (r: u16)
    ensures img.writePtr <= img.endPtr ==> img.writePtr + r == img.endPtr
  {
    Trunc16(img.endPtr - img.writePtr)
  }

  /** get_fs_size */
  function FsSize(img: Image): (r: u16)
    ensures img.startPtr <= img.endPtr ==> img.startPtr + r == img.endPtr
  {
    Trunc16(img.endPtr - img.startPtr)
  }

  /** get_fs_free_file_slots */
  function FsFreeFileSlots(img: Image): (r: u16)
    ensures img.fileIdx <= MAX_FILES ==> r + img.fileIdx == MAX_FILES
  {
    Trunc16(MAX_FILES - img.fileIdx)
  }

  /** get_fs_total_file_slots */
  function FsTotalFileSlots(): u16 {
    MAX_FILES
  }

  /** get_fs_total_files */
  function FsTotalFiles(img: Image): u16 {
    img.fileIdx
  }

  /** get_file_free_bytes */
  function FileFreeBytes(f: FileRec): (r: u16)
    ensures f.writePtr <= f.endPtr ==> f.writePtr + r == f.endPtr
  {
    Trunc16(f.endPtr - f.writePtr)
  }

  /** get_file_used_bytes */
  function FileUsedBytes(f: FileRec): (r: u16)
    ensures f.startPtr <= f.writePtr ==> f.startPtr + r == f.writePtr
  {
    Trunc16(f.writePtr - f.startPtr)
  }

  /** get_file_size */
  function FileSize(f: FileRec): (r: u16)
    ensures f.startPtr <= f.endPtr ==> f.startPtr + r == f.endPtr
  {
    Trunc16(f.endPtr - f.startPtr)
  }

  // ------------------------------------------------------------ invariant

  /** A created file: a non-empty region with both cursors inside it. */
  predicate RecordOk(f: FileRec) {
    f.startPtr < f.endPtr && f.startPtr <= f.readPtr <= f.endPtr && f.startPtr <= f.writePtr <= f.endPtr
  }

  /** Slots [0, file_idx) are carved back to back from start_ptr up to write_ptr. */
  predicate Contiguous(img: Image)
    requires |img.files| == MAX_FILES && img.fileIdx <= MAX_FILES
  {
    && (img.fileIdx == 0 ==> img.writePtr == img.startPtr)
    && (img.fileIdx > 0 ==> img.files[0].startPtr == img.startPtr && img.files[img.fileIdx - 1].endPtr == img.writePtr)
    && (forall i :: 0 <= i < img.fileIdx - 1 ==> img.files[i].endPtr == img.files[i + 1].startPtr)
  }

  /** What reset_fs establishes and every later operation keeps. */
  predicate Formatted(img: Image) {
    && HeaderOk(img) && img.startPtr == FS_OFFSET
    && (forall i :: 0 <= i < img.fileIdx ==> RecordOk(img.files[i]))
    && Contiguous(img)
  }
}
