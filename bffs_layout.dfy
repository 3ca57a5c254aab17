// B-FRAM-FileSystem.h: the layout constants, the file and file-system
// records, and the option and status enumerations of the engine.
module Layout {
  import opened CTypes
  import opened FramDriver

  /** Number of file slots of the superblock. */
  const MAX_FILES: nat := 20
  /** Bytes of a slot's name field. */
  const MAX_FILENAME_SIZE: nat := 10
  /** Bytes of one serialised file record: the name and four uint16 pointers. */
  const FILE_SIZE: nat := 8 + MAX_FILENAME_SIZE
  /** Bytes of the serialised superblock: all slots and four uint16 fields. */
  const FS_SIZE: nat := FILE_SIZE * MAX_FILES + 8
  /** Device address where file data starts: right after the superblock. */
  const FS_OFFSET: nat := FS_SIZE
  /** Device bytes left for file data. */
  const USABLE_SIZE: nat := FRAM_SIZE - FS_SIZE

  /** A slot's raw name field: exactly MAX_FILENAME_SIZE bytes, not necessarily NUL-terminated. */
  type NameField = s: seq<byte> | |s| == MAX_FILENAME_SIZE witness [0, 0, 0, 0, 0, 0, 0, 0, 0, 0]

  /** file_t. Every pointer is an absolute device address, not an offset within the file. */
  datatype FileRec = FileRec(filename: NameField, readPtr: u16, writePtr: u16, startPtr: u16, endPtr: u16)

  /** The slot table of the superblock: exactly MAX_FILES records. */
  type SlotTable = s: seq<FileRec> | |s| == MAX_FILES witness seq(MAX_FILES, _ => EmptySlot())

  /** file_system_t, the superblock: the slots, the slot high-water mark and the bump allocator. */
  datatype Image = Image(files: SlotTable, fileIdx: u16, writePtr: u16, endPtr: u16, startPtr: u16)

  /** An all-zero slot, as a zero-initialised global holds it. */
  function EmptySlot(): FileRec {
    FileRec(seq(MAX_FILENAME_SIZE, _ => 0), 0, 0, 0, 0)
  }

  /** The superblock global before any call: every byte zero. */
  function ZeroImage(): Image
  {
    Image(seq(MAX_FILES, _ => EmptySlot()), 0, 0, 0, 0)
  }

  /** bffs_mount_option: exactly the two modes. */
  datatype MountOption = FsMountOptionReset | FsMountOptionLoad

  /** bffs_read_file_option: exactly the two read policies. */
  datatype ReadFileOption = ReadFileResetReadPtr | ReadFileResetDontReadPtr

  /** bffs_st: every status the engine can report, grouped per operation. */
  datatype Status =
    | CreateFileSuccess | CreateFileBadFilename | CreateFileBadSize | CreateFileFileTooLarge
    | CreateFileFilenameTaken | CreateFileInvalidFilePtr | CreateFileNoFileSlots
    | MountFsSuccess | MountFsNoMemory | MountFsBadOption | MountFsInvalidFs
    | WriteFileSuccess | WriteFileOverflow | WriteFileInvalidFilePtr | WriteFileInvalidDataPtr | WriteFileBadLength
    | ReadFileSuccess | ReadFileOverflow | ReadFileInvalidFilePtr | ReadFileInvalidDataPtr | ReadFileBadLength
    | OpenFileSuccess | OpenFileFileNotFound | OpenFileInvalidFilePtr
    | ClearFileSuccess | ClearFileInvalidFilePtr
    | SeekFileSuccess | SeekFileInvalidFilePtr | SeekFileOverflow
    | SaveFsSuccess

  /** A `file_t*` handed to callers: NULL, or the address of one slot of the superblock. */
  datatype Handle = Null | Slot(index: nat)

  /** A non-null handle designates one of the MAX_FILES slots. */
  predicate HandleOk(h: Handle) {
    h.Slot? ==> h.index < MAX_FILES
  }

  /** The sizes the header derives are those of the struct, and data ends exactly at the device's end. */
  lemma LayoutConstants()
    ensures FILE_SIZE == 18 && FS_SIZE == 368 && FS_OFFSET == FS_SIZE
    ensures FS_OFFSET + USABLE_SIZE == FRAM_SIZE
  {
  }
}
