// What the engine's operations promise, stated over the functions of engine.dfy.
module EngineProps {
  import opened CTypes
  import opened Wrappers
  import opened FramDriver
  import opened Layout
  import opened Superblock
  import opened Filenames
  import opened Engine

  // ------------------------------------------------------ save, load, reset

  /** Loading right after a save gives back the saved struct; it mounts exactly when the four checks hold. */
  lemma LoadAfterSave(s: State)
    requires Shaped(s)
    ensures LoadFs(SaveFs(s)) == Outcome(CheckFs(s.img), SaveFs(s))
  {
    DecodeEncodeImage(s.img);
  }

  /** Saving right after a load writes back the very bytes that were read. */
  lemma SaveAfterLoad(s: State)
    requires Shaped(s)
    ensures SaveFs(LoadFs(s).state) == LoadFs(s).state
  {
    var t := LoadFs(s).state;
    EncodeDecodeImage(s.dev[..FS_SIZE]);
    assert SaveFs(t).dev == t.dev[..FS_SIZE] + t.dev[FS_SIZE..];
  }

  /** reset_fs: MOUNT_FS_NO_MEMORY with nothing changed exactly when the area exceeds USABLE_SIZE. */
  lemma ResetRefusesOversize(s: State, fsSize: u16)
    requires Shaped(s)
    ensures ResetFs(s, fsSize).status == MountFsNoMemory <==> fsSize > USABLE_SIZE
    ensures ResetFs(s, fsSize).status != MountFsNoMemory ==> ResetFs(s, fsSize).status == MountFsSuccess
    ensures fsSize > USABLE_SIZE ==> ResetFs(s, fsSize).state == s
  {
  }

  /** A successful reset: empty allocator over [FS_OFFSET, FS_OFFSET + size), slots untouched, saved, and loadable. */
  lemma ResetFormats(s: State, fsSize: u16)
    requires Shaped(s) && fsSize <= USABLE_SIZE
    ensures var r := ResetFs(s, fsSize).state;
      && r.img.fileIdx == 0 && r.img.startPtr == FS_OFFSET && r.img.writePtr == FS_OFFSET
      && r.img.endPtr == FS_OFFSET + fsSize && r.img.files == s.img.files
      && r.dev[..FS_SIZE] == EncodeImage(r.img) && r.dev[FS_SIZE..] == s.dev[FS_SIZE..]
      && Formatted(r.img) && FsFreeBytes(r.img) == fsSize && FsSize(r.img) == fsSize
      && LoadFs(r) == Outcome(MountFsSuccess, r)
  {
    var r := ResetFs(s, fsSize).state;
    LoadAfterSave(r);
    assert SaveFs(r) == r;
  }

  /** A maximal reset ends the area exactly at the end of the device. */
  lemma MaximalResetFillsDevice(s: State)
    requires Shaped(s)
    ensures ResetFs(s, USABLE_SIZE as u16).state.img.endPtr == FRAM_SIZE
  {
  }

  /** A formatted struct, once saved, mounts again with the load option: success, and exactly that struct. */
  lemma FormattedLoads(s: State, fsSize: u16)
    requires Shaped(s) && Formatted(s.img)
    ensures LoadFs(SaveFs(s)) == Outcome(MountFsSuccess, SaveFs(s))
    ensures MountFs(SaveFs(s), fsSize, FsMountOptionLoad) == Outcome(MountFsSuccess, SaveFs(s))
  {
    LoadAfterSave(s);
  }

  /** reset_fs leaves the slots alone: a name stored before a reset still blocks create and is still found by open. */
  lemma StaleNameSurvivesReset(s: State, fsSize: u16, name: seq<byte>, i: nat, h: Handle)
    requires Shaped(s) && fsSize <= USABLE_SIZE && IsCString(name) && |name| < MAX_FILENAME_SIZE
    requires i < MAX_FILES && Matches(name, s.img.files[i].filename)
    ensures var r := ResetFs(s, fsSize).state;
      && CreateFile(r, name, 1, Some(h)).status == CreateFileFilenameTaken
      && OpenFile(r, name, Some(h)).status == OpenFileSuccess
  {
    var r := ResetFs(s, fsSize).state;
    DuplicateNameRejected(r, name, 1, h, i);
    OpenFinds(r, name, Some(h));
  }

  // ----------------------------------------------------------------- lookup

  lemma FindFromIff(files: seq<FileRec>, name: seq<byte>)
    requires |name| < MAX_FILENAME_SIZE
    ensures FindFrom(files, name, 0).Some? <==> NameInUse(files, name)
  {
  }

  // ----------------------------------------------------------------- create

  /** create_file's errors, in the order the source checks them; every error changes nothing. */
  lemma CreateErrorOrder(s: State, name: seq<byte>, size: u16, out: Option<Handle>)
    requires Shaped(s) && IsCString(name) && |name| != MAX_FILENAME_SIZE
    ensures var r := CreateFile(s, name, size, out);
      var img := s.img;
      && (r.status == CreateFileInvalidFilePtr <==> out.None?)
      && (r.status == CreateFileNoFileSlots <==> out.Some? && img.fileIdx >= MAX_FILES)
      && (r.status == CreateFileBadFilename <==> out.Some? && img.fileIdx < MAX_FILES && |name| > MAX_FILENAME_SIZE)
      && (r.status == CreateFileFilenameTaken <==>
            out.Some? && img.fileIdx < MAX_FILES && |name| < MAX_FILENAME_SIZE && NameInUse(img.files, name))
      && (r.status == CreateFileBadSize <==>
            out.Some? && img.fileIdx < MAX_FILES && |name| < MAX_FILENAME_SIZE && !NameInUse(img.files, name)
            && size == 0)
      && (r.status == CreateFileFileTooLarge <==>
            out.Some? && img.fileIdx < MAX_FILES && |name| < MAX_FILENAME_SIZE && !NameInUse(img.files, name)
            && size > 0 && img.writePtr + size > img.endPtr)
      && (r.status == CreateFileSuccess <==>
            out.Some? && img.fileIdx < MAX_FILES && |name| < MAX_FILENAME_SIZE && !NameInUse(img.files, name)
            && size > 0 && img.writePtr + size <= img.endPtr)
      && (r.status != CreateFileSuccess ==> r.state == s && r.handle == (if out.Some? then out.value else Null))
  {
    if |name| < MAX_FILENAME_SIZE {
      FindFromIff(s.img.files, name);
    }
  }

  /** A name already held by any of the MAX_FILES slots is refused whatever the size. */
  lemma DuplicateNameRejected(s: State, name: seq<byte>, size: u16, h: Handle, i: nat)
    requires Shaped(s) && IsCString(name) && |name| < MAX_FILENAME_SIZE
    requires s.img.fileIdx < MAX_FILES && i < MAX_FILES && Matches(name, s.img.files[i].filename)
    ensures CreateFile(s, name, size, Some(h)) == HandleOutcome(CreateFileFilenameTaken, s, h)
  {
    CreateErrorOrder(s, name, size, Some(h));
  }

  /** The empty name collides with any slot whose name field starts with NUL, such as a never-used slot. */
  lemma EmptyNameCollides(s: State, size: u16, h: Handle, i: nat)
    requires Shaped(s) && s.img.fileIdx < MAX_FILES && i < MAX_FILES && s.img.files[i].filename[0] == 0
    ensures CreateFile(s, [], size, Some(h)).status == CreateFileFilenameTaken
  {
    DuplicateNameRejected(s, [], size, h, i);
  }

  /** A successful create: slot file_idx holds the name and the next `size` bytes; the allocator moves on by `size`. */
  lemma CreateSucceeds(s: State, name: seq<byte>, size: u16, out: Option<Handle>)
    requires Shaped(s) && IsCString(name) && |name| != MAX_FILENAME_SIZE
    requires CreateFile(s, name, size, out).status == CreateFileSuccess
    ensures var r := CreateFile(s, name, size, out);
      var i := s.img.fileIdx;
      var f := r.state.img.files[i];
      && i < MAX_FILES && r.handle == Slot(i)
      && Matches(name, f.filename)
      && f.startPtr == f.readPtr == f.writePtr == s.img.writePtr && f.endPtr == s.img.writePtr + size
      && r.state.img.fileIdx == i + 1 && r.state.img.writePtr == s.img.writePtr + size
      && r.state.img.startPtr == s.img.startPtr && r.state.img.endPtr == s.img.endPtr
      && (forall j :: 0 <= j < MAX_FILES && j != i ==> r.state.img.files[j] == s.img.files[j])
      && r.state.dev == Written(s.dev, 0, EncodeImage(r.state.img))
      && (HeaderOk(s.img) ==> FsFreeBytes(r.state.img) + size == FsFreeBytes(s.img))
  {
    CreateErrorOrder(s, name, size, out);
    var i := s.img.fileIdx;
    StoredNameMatches(name, s.img.files[i].filename, name);
  }

  /** Creating keeps the regions carved back to back inside the area. */
  lemma CreatePreservesFormatted(s: State, name: seq<byte>, size: u16, out: Option<Handle>)
    requires Shaped(s) && Formatted(s.img) && IsCString(name) && |name| != MAX_FILENAME_SIZE
    ensures Formatted(CreateFile(s, name, size, out).state.img)
  {
    var r := CreateFile(s, name, size, out);
    if r.status == CreateFileSuccess {
      CreateSucceeds(s, name, size, out);
      var img := r.state.img;
      var i := s.img.fileIdx;
      forall j | 0 <= j < img.fileIdx ensures RecordOk(img.files[j]) {
        if j < i {
          assert img.files[j] == s.img.files[j];
        }
      }
      forall j | 0 <= j < img.fileIdx - 1 ensures img.files[j].endPtr == img.files[j + 1].startPtr {
        assert img.files[j] == s.img.files[j];
        if j + 1 < i {
          assert img.files[j + 1] == s.img.files[j + 1];
        }
      }
      if i > 0 {
        assert img.files[0] == s.img.files[0];
      }
    } else {
      CreateErrorOrder(s, name, size, out);
    }
  }

  /** Right after a create, opening the same name finds the new slot and changes nothing. */
  lemma CreateThenOpen(s: State, name: seq<byte>, size: u16, out: Option<Handle>, out2: Handle)
    requires Shaped(s) && IsCString(name) && |name| < MAX_FILENAME_SIZE
    requires CreateFile(s, name, size, out).status == CreateFileSuccess
    ensures var r := CreateFile(s, name, size, out);
      OpenFile(r.state, name, Some(out2)) == HandleOutcome(OpenFileSuccess, r.state, r.handle)
  {
    var r := CreateFile(s, name, size, out);
    CreateErrorOrder(s, name, size, out);
    CreateSucceeds(s, name, size, out);
    var i := s.img.fileIdx;
    var files := r.state.img.files;
    forall j | 0 <= j < i ensures !Matches(name, files[j].filename) {
      assert files[j] == s.img.files[j];
    }
    var found := FindFrom(files, name, 0);
    assert found == Some(i);
    var f := files[i];
    assert files[i := f.(readPtr := f.startPtr)] == files;
  }

  // ------------------------------------------------------------------- open

  /** open_file finds the first of all MAX_FILES slots holding the name and rewinds only its read pointer. */
  lemma OpenFinds(s: State, name: seq<byte>, out: Option<Handle>)
    requires Shaped(s) && IsCString(name) && |name| < MAX_FILENAME_SIZE
    ensures var r := OpenFile(s, name, out);
      && (r.status == OpenFileInvalidFilePtr <==> out.None?)
      && (r.status == OpenFileSuccess <==> out.Some? && NameInUse(s.img.files, name))
      && (r.status == OpenFileFileNotFound <==> out.Some? && !NameInUse(s.img.files, name))
      && (r.status == OpenFileSuccess ==>
            && r.handle.Slot? && r.handle.index < MAX_FILES
            && Matches(name, s.img.files[r.handle.index].filename)
            && (forall j :: 0 <= j < r.handle.index ==> !Matches(name, s.img.files[j].filename))
            && var f := s.img.files[r.handle.index];
               r.state == s.(img := s.img.(files := s.img.files[r.handle.index := f.(readPtr := f.startPtr)])))
      && (r.status != OpenFileSuccess ==> r.state == s)
      && (r.status == OpenFileFileNotFound ==> r.handle == out.value)
  {
    FindFromIff(s.img.files, name);
  }

  // -------------------------------------------------------------- write/read

  /** write_file's errors, in the source's order; every error changes nothing. */
  lemma WriteRejects(s: State, h: Handle, len: u16, data: Option<seq<byte>>)
    requires Shaped(s) && HandleOk(h) && (data.Some? ==> len <= |data.value|)
    requires WriteInDevice(s.img, h, len, data.Some?)
    ensures var r := WriteFile(s, h, len, data);
      && (r.status == WriteFileInvalidFilePtr <==> h.Null?)
      && (r.status == WriteFileInvalidDataPtr <==> h.Slot? && data.None?)
      && (r.status == WriteFileBadLength <==> h.Slot? && data.Some? && len == 0)
      && (r.status == WriteFileOverflow <==>
            (h.Slot? && data.Some? && len > 0
             && s.img.files[h.index].writePtr + len > s.img.files[h.index].endPtr))
      && (r.status == WriteFileSuccess <==>
            (h.Slot? && data.Some? && len > 0
             && s.img.files[h.index].writePtr + len <= s.img.files[h.index].endPtr))
      && (r.status != WriteFileSuccess ==> r.state == s)
  {
  }

  /** A successful write: the bytes land at the write pointer, only that pointer advances, the struct is saved. */
  lemma WriteStores(s: State, h: Handle, len: u16, data: Option<seq<byte>>)
    requires Shaped(s) && HandleOk(h) && (data.Some? ==> len <= |data.value|)
    requires WriteInDevice(s.img, h, len, data.Some?)
    requires WriteFile(s, h, len, data).status == WriteFileSuccess
    ensures var r := WriteFile(s, h, len, data);
      var f := s.img.files[h.index];
      var w := f.writePtr;
      && data.Some? && w + len <= f.endPtr && w + len <= FRAM_SIZE
      && r.state.img == s.img.(files := s.img.files[h.index := f.(writePtr := w + len)])
      && r.state.dev == Written(Written(s.dev, w, data.value[..len]), 0, EncodeImage(r.state.img))
      && (FS_SIZE <= w ==> r.state.dev[w..w + len] == data.value[..len])
      && (forall a :: FS_SIZE <= a < FRAM_SIZE && !(w <= a < w + len) ==> r.state.dev[a] == s.dev[a])
  {
    var f := s.img.files[h.index];
    var w := f.writePtr;
    var dev := Written(s.dev, w, data.value[..len]);
    var r := WriteFile(s, h, len, data);
    assert r.state.dev == Written(dev, 0, EncodeImage(r.state.img));
    if FS_SIZE <= w {
      assert r.state.dev[w..w + len] == dev[w..w + len];
    }
  }

  /** read_file's errors, in the source's order; every error changes nothing and yields nothing. */
  lemma ReadRejects(s: State, h: Handle, len: u16, hasBuffer: bool, option: ReadFileOption)
    requires Shaped(s) && HandleOk(h)
    requires ReadInDevice(s.img, h, len, hasBuffer)
    ensures var r := ReadFile(s, h, len, hasBuffer, option);
      && (r.status == ReadFileInvalidFilePtr <==> h.Null?)
      && (r.status == ReadFileInvalidDataPtr <==> h.Slot? && !hasBuffer)
      && (r.status == ReadFileBadLength <==> h.Slot? && hasBuffer && len == 0)
      && (r.status == ReadFileOverflow <==>
            (h.Slot? && hasBuffer && len > 0
             && s.img.files[h.index].readPtr + len > s.img.files[h.index].endPtr))
      && (r.status == ReadFileSuccess <==>
            (h.Slot? && hasBuffer && len > 0
             && s.img.files[h.index].readPtr + len <= s.img.files[h.index].endPtr))
      && (r.status != ReadFileSuccess ==> r.state == s && r.data == [])
  {
  }

  /** A successful read: the device bytes at the read pointer; the device and write pointer untouched. */
  lemma ReadReturns(s: State, h: Handle, len: u16, hasBuffer: bool, option: ReadFileOption)
    requires Shaped(s) && HandleOk(h)
    requires ReadInDevice(s.img, h, len, hasBuffer)
    requires ReadFile(s, h, len, hasBuffer, option).status == ReadFileSuccess
    ensures var r := ReadFile(s, h, len, hasBuffer, option);
      var f := s.img.files[h.index];
      && f.readPtr + len <= f.endPtr
      && r.data == s.dev[f.readPtr..f.readPtr + len]
      && r.state.dev == s.dev
      && r.state.img == s.img.(files := s.img.files[h.index :=
           f.(readPtr := if option == ReadFileResetReadPtr then f.startPtr else f.readPtr)])
  {
  }

  /** A keep-cursor read does not advance: the state is unchanged, so the next such read returns the same bytes. */
  lemma KeepCursorReadRepeats(s: State, h: Handle, len: u16)
    requires Shaped(s) && HandleOk(h)
    requires ReadInDevice(s.img, h, len, true)
    ensures var r := ReadFile(s, h, len, true, ReadFileResetDontReadPtr);
      r.state == s && ReadFile(r.state, h, len, true, ReadFileResetDontReadPtr) == r
  {
    if h.Slot? {
      var f := s.img.files[h.index];
      assert s.img.files[h.index := f] == s.img.files;
    }
  }

  /** Writing at the read position and reading the same length back (rewinding) returns the written bytes. */
  lemma WriteThenRead(s: State, h: Handle, len: u16, data: seq<byte>)
    requires Shaped(s) && HandleOk(h) && h.Slot? && len <= |data|
    requires WriteInDevice(s.img, h, len, true) && FS_SIZE <= s.img.files[h.index].readPtr == s.img.files[h.index].writePtr
    requires WriteFile(s, h, len, Some(data)).status == WriteFileSuccess
    ensures var w := WriteFile(s, h, len, Some(data)).state;
      var r := ReadFile(w, h, len, true, ReadFileResetReadPtr);
      r.status == ReadFileSuccess && r.data == data[..len]
      && r.state.img.files[h.index].readPtr == s.img.files[h.index].startPtr
  {
    WriteStores(s, h, len, Some(data));
  }

  // ------------------------------------------------------------ clear, seek

  /** clear_file zeroes exactly the file's region (outside the superblock) and rewinds both cursors. */
  lemma ClearEffect(s: State, h: Handle)
    requires Shaped(s) && HandleOk(h) && h.Slot?
    requires var f := s.img.files[h.index]; FS_SIZE <= f.startPtr <= f.endPtr <= FRAM_SIZE
    ensures var r := ClearFile(s, h);
      var f := s.img.files[h.index];
      var g := r.state.img.files[h.index];
      && r.status == ClearFileSuccess
      && (forall a :: f.startPtr <= a < f.endPtr ==> r.state.dev[a] == 0)
      && (forall a :: FS_SIZE <= a < FRAM_SIZE && !(f.startPtr <= a < f.endPtr) ==> r.state.dev[a] == s.dev[a])
      && g == f.(readPtr := f.startPtr, writePtr := f.startPtr)
      && r.state.img == s.img.(files := s.img.files[h.index := g])
      && r.state.dev[..FS_SIZE] == EncodeImage(r.state.img)
      && TellFile(g) == 0 && FileUsedBytes(g) == 0
  {
    var f := s.img.files[h.index];
    var r := ClearFile(s, h);
    forall a | f.startPtr <= a < f.endPtr ensures r.state.dev[a] == 0 {
      assert r.state.dev[a] == Written(s.dev, f.startPtr, Zeros(f.endPtr - f.startPtr))[a];
    }
  }

  /** After a clear, reading up to the file's size from the start returns zero bytes. */
  lemma ClearThenRead(s: State, h: Handle, n: u16)
    requires Shaped(s) && HandleOk(h) && h.Slot?
    requires var f := s.img.files[h.index]; FS_SIZE <= f.startPtr && 0 < n && f.startPtr + n <= f.endPtr <= FRAM_SIZE
    ensures var c := ClearFile(s, h).state;
      ReadFile(c, h, n, true, ReadFileResetReadPtr).data == Zeros(n)
  {
    ClearEffect(s, h);
  }

  /** seek_file moves only the read pointer; tell_file then reports the offset sought. */
  lemma SeekThenTell(s: State, h: Handle, b: u16)
    requires Shaped(s) && HandleOk(h)
    ensures h.Null? ==> SeekFile(s, h, b) == Outcome(SeekFileInvalidFilePtr, s)
    ensures h.Slot? && s.img.files[h.index].startPtr + b > s.img.files[h.index].endPtr ==>
      SeekFile(s, h, b) == Outcome(SeekFileOverflow, s)
    ensures h.Slot? && s.img.files[h.index].startPtr + b <= s.img.files[h.index].endPtr ==>
      var f := s.img.files[h.index];
      var r := SeekFile(s, h, b);
      && r == Outcome(SeekFileSuccess, s.(img := s.img.(files := s.img.files[h.index := f.(readPtr := f.startPtr + b)])))
      && TellFile(r.state.img.files[h.index]) == b
  {
  }

  // ------------------------------------------------ the layout invariant

  /** Regions of earlier slots end before regions of later slots start. */
  lemma {:induction false} RegionsDisjoint(img: Image, i: nat, j: nat)
    requires Formatted(img) && i < j < img.fileIdx
    ensures img.files[i].endPtr <= img.files[j].startPtr
    decreases j - i
  {
    if j > i + 1 {
      RegionsDisjoint(img, i, j - 1);
      assert img.files[j - 1].endPtr == img.files[j].startPtr;
    }
  }

  /** Every allocated region lies in [start_ptr, write_ptr) and hence inside the device. */
  lemma {:induction false} RegionsInArea(img: Image, i: nat)
    requires Formatted(img) && i < img.fileIdx
    ensures FS_OFFSET == img.startPtr <= img.files[i].startPtr < img.files[i].endPtr <= img.writePtr
    ensures img.writePtr <= img.endPtr <= FRAM_SIZE
  {
    if i > 0 {
      RegionsDisjoint(img, 0, i);
    }
    if i < img.fileIdx - 1 {
      RegionsDisjoint(img, i, img.fileIdx - 1);
    }
  }

  lemma {:induction false} CoverUpTo(img: Image, k: nat, a: int)
    requires Formatted(img) && 1 <= k <= img.fileIdx
    requires img.startPtr <= a < img.files[k - 1].endPtr
    ensures exists i :: 0 <= i < k && img.files[i].startPtr <= a < img.files[i].endPtr
    decreases k
  {
    if a < img.files[k - 1].startPtr {
      assert k - 1 > 0;
      assert img.files[k - 2].endPtr == img.files[k - 1].startPtr;
      CoverUpTo(img, k - 1, a);
    }
  }

  /** The allocated regions cover [start_ptr, write_ptr) with no gap: each address there lies in one of them. */
  lemma RegionsCover(img: Image, a: int)
    requires Formatted(img) && img.startPtr <= a < img.writePtr
    ensures exists i :: 0 <= i < img.fileIdx && img.files[i].startPtr <= a < img.files[i].endPtr
  {
    CoverUpTo(img, img.fileIdx, a);
  }

  /** Replacing one record by one with the same region and cursors inside it keeps the invariant. */
  lemma CursorMoveKeepsFormatted(img: Image, i: nat, g: FileRec)
    requires Formatted(img) && i < MAX_FILES
    requires g.startPtr == img.files[i].startPtr && g.endPtr == img.files[i].endPtr
    requires i < img.fileIdx ==> RecordOk(g)
    ensures Formatted(img.(files := img.files[i := g]))
  {
    var img' := img.(files := img.files[i := g]);
    forall j | 0 <= j < img'.fileIdx ensures RecordOk(img'.files[j]) {
      if j != i {
        assert img'.files[j] == img.files[j];
      }
    }
  }

  /** Rewinding or moving cursors of any slot keeps the invariant. */
  lemma OpenPreservesFormatted(s: State, name: seq<byte>, out: Option<Handle>)
    requires Shaped(s) && Formatted(s.img) && IsCString(name) && |name| < MAX_FILENAME_SIZE
    ensures Formatted(OpenFile(s, name, out).state.img)
  {
    var r := OpenFile(s, name, out);
    var img := r.state.img;
    forall j | 0 <= j < img.fileIdx ensures RecordOk(img.files[j]) {
      assert img.files[j].startPtr == s.img.files[j].startPtr && img.files[j].endPtr == s.img.files[j].endPtr;
    }
  }

  lemma WritePreservesFormatted(s: State, h: Handle, len: u16, data: Option<seq<byte>>)
    requires Shaped(s) && Formatted(s.img) && HandleOk(h) && (data.Some? ==> len <= |data.value|)
    requires WriteInDevice(s.img, h, len, data.Some?)
    ensures Formatted(WriteFile(s, h, len, data).state.img)
  {
    var r := WriteFile(s, h, len, data);
    if r.status == WriteFileSuccess {
      var f := s.img.files[h.index];
      CursorMoveKeepsFormatted(s.img, h.index, f.(writePtr := f.writePtr + len));
    }
  }

  lemma ReadPreservesFormatted(s: State, h: Handle, len: u16, hasBuffer: bool, option: ReadFileOption)
    requires Shaped(s) && Formatted(s.img) && HandleOk(h)
    requires ReadInDevice(s.img, h, len, hasBuffer)
    ensures Formatted(ReadFile(s, h, len, hasBuffer, option).state.img)
  {
    var img := ReadFile(s, h, len, hasBuffer, option).state.img;
    forall j | 0 <= j < img.fileIdx ensures RecordOk(img.files[j]) {
      assert img.files[j].startPtr == s.img.files[j].startPtr && img.files[j].endPtr == s.img.files[j].endPtr;
    }
  }

  lemma ClearPreservesFormatted(s: State, h: Handle)
    requires Shaped(s) && Formatted(s.img) && HandleOk(h)
    requires h.Slot? ==> s.img.files[h.index].startPtr <= s.img.files[h.index].endPtr <= FRAM_SIZE
    ensures Formatted(ClearFile(s, h).state.img)
  {
    if h.Slot? {
      var f := s.img.files[h.index];
      CursorMoveKeepsFormatted(s.img, h.index, f.(readPtr := f.startPtr, writePtr := f.startPtr));
    }
  }

  lemma SeekPreservesFormatted(s: State, h: Handle, b: u16)
    requires Shaped(s) && Formatted(s.img) && HandleOk(h)
    ensures Formatted(SeekFile(s, h, b).state.img)
  {
    var img := SeekFile(s, h, b).state.img;
    forall j | 0 <= j < img.fileIdx ensures RecordOk(img.files[j]) {
      assert img.files[j].startPtr == s.img.files[j].startPtr && img.files[j].endPtr == s.img.files[j].endPtr;
    }
  }

  /** Every allocated slot of a formatted image meets the cursor operations' device bounds. */
  lemma AllocatedSlotInDevice(img: Image, i: nat)
    requires Formatted(img) && i < img.fileIdx
    ensures FS_SIZE <= img.files[i].startPtr <= img.files[i].endPtr <= FRAM_SIZE
  {
    RegionsInArea(img, i);
  }

  // ------------------------------------------------------------ accessors

  /** On a valid superblock the accessors are exact: no uint16 wrap-around. */
  lemma FsAccessorsExact(img: Image)
    requires HeaderOk(img)
    ensures FsFreeBytes(img) + (img.writePtr - img.startPtr) == FsSize(img)
    ensures FsFreeFileSlots(img) + FsTotalFiles(img) == FsTotalFileSlots()
  {
  }

  /** On a created file the per-file accessors are exact: free plus used is the size; tell is within it. */
  lemma FileAccessorsExact(f: FileRec)
    requires RecordOk(f)
    ensures FileFreeBytes(f) + FileUsedBytes(f) == FileSize(f)
    ensures TellFile(f) <= FileSize(f)
  {
  }

  // -------------------------------------------------------------- finding

  /**
   * The source's 16-bit overflow test never refuses what the full-width test accepts,
   * and agrees with it whenever pointer plus length fits in 16 bits.
   */
  lemma OverflowGuardAgrees(ptr: u16, len: u16, end: u16)
    ensures OverflowsAsWritten(ptr, len, end) ==> Overflows(ptr, len, end)
    ensures ptr + len < 0x1_0000 ==> (OverflowsAsWritten(ptr, len, end) <==> Overflows(ptr, len, end))
    ensures !Overflows(ptr, len, end) ==> ptr + len <= end
  {
  }

  /**
   * A file at [368, 378) and a length of 65530: the 16-bit sum is 362, so the source's
   * test lets the call through, although the range runs far past the file and the device.
   */
  lemma WrappedLengthPassesGuard()
    ensures !OverflowsAsWritten(368, 65530, 378)
    ensures Overflows(368, 65530, 378) && 368 + 65530 > FRAM_SIZE
  {
  }
}
