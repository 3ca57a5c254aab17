# B-FRAM-FS in Dafny

B-FRAM-FS is a small file system for a byte-addressed FRAM chip of 8192 bytes. The chip
holds one superblock, `file_system_t BFFS`, at address 0. The superblock has:

- a fixed table of 20 file records, each with a 10-byte name and four uint16 pointers
  (read, write, start, end);
- a slot high-water mark `file_idx`;
- a bump allocator whose `write_ptr` moves from `start_ptr` toward `end_ptr`.

Every pointer is an absolute device address. A file is a contiguous region that the
allocator carves when the file is created, and it never moves. Writes append at the
file's write pointer. Reads, seeks and tells work on its read pointer. Reset, create,
write and clear end with `save_fs`, which writes the whole superblock through to the
device again. Open, a read with `READ_FILE_RESET_READ_PTR`, and seek change a file's
`read_ptr` in memory only. None of them calls `save_fs`, so the device copy keeps the old
read pointer until the next save.

The project has three layers:

- **Device** (`fram_driver.dfy`): the dummy driver's global array, as class `Fram` over
  an `array<byte>`. `Write` and `Read` are its two copy loops, proved against the pure
  function `Written`.
- **Engine** (`engine.dfy`, `superblock.dfy`, `filenames.dfy`, `bffs_layout.dfy`): every
  operation of `B-FRAM-FileSystem.c` as a function of `State(img, dev)`. `img` is the
  superblock's value. `dev` is the device contents. The superblock has a fixed
  field-by-field byte encoding, with a round trip proved both ways. Names are compared
  exactly as `strcmp` compares a NUL-padded query with a raw 10-byte field.
- **The global struct** (`bffs.dfy`): class `Bffs.FileSystem` holds
  `files: array<FileRec>`, the four uint16 fields, and the device. Its methods run the
  source's guard chains, loops and in-place updates. Each method is proved to end in the
  status and state that the matching `Engine` function gives.

`engine_props.dfy` states what the operations promise. This covers:

- the error order of every guard chain;
- the save/load round trip;
- an invariant, `Engine.Formatted`: contiguous, disjoint regions that cover the
  allocated area. Reset establishes it, and create, open, write, read, clear and seek
  keep it. Load does not establish it: `load_fs`, and `mount_fs` with the load option,
  adopt any image that passes the four header checks;
- the cursor laws: write-then-read, seek-then-tell, clear-then-read;
- exact accessors.

`scenario.dfy` replays the call sequence of the dummy-driver demo on a fresh device and
proves which bytes it reads back.

Some C details are modelled explicitly:

- **uint16 arithmetic.** The accessors subtract in 16 bits, modelled with `CTypes.Trunc16`.
- **`file_t**` output parameters.** They are an `Option<Handle>`. `None` is a NULL
  pointer. `Some(h)` is the caller's variable, which an error leaves as it was.
- **`file_t*` handles.** A handle is `Null` or `Slot(i)`.
- **Data buffers.** They are `array?<byte>` in the class, and an `Option` or flag in the
  engine.
- **`FS_STRCT_SIZE`.** `save_fs` and `load_fs` use it, but no header defines it. It is
  modelled as the size of `file_system_t`, which is `FS_SIZE` = 368 bytes.

## Model

| member | source | states |
|---|---|---|
| CTypes.Trunc16 | BFFS/B-FRAM-FileSystem.c:273-312 | storing an int in a uint16_t: identity on [0, 65536); adds or subtracts 65536 just outside |
| FramDriver.Written | dummy_fram_driver/fram_driver.c:18-24 | device after storing data at an address: same length, the range holds the data, every other byte unchanged |
| FramDriver.WrittenNothing | dummy_fram_driver/fram_driver.c:20 | a zero-length write changes nothing |
| FramDriver.WrittenAppend | dummy_fram_driver/fram_driver.c:20-23 | one more loop iteration stores one more byte after the bytes already stored |
| FramDriver.Zeros | BFFS/B-FRAM-FileSystem.c:240-243 | n zero bytes |
| FramDriver.Fram.constructor | dummy_fram_driver/fram_driver.c:9 | the global FRAM array: FRAM_SIZE bytes, all zero |
| FramDriver.Fram.Write | dummy_fram_driver/fram_driver.c:18-24 | write_FRAM: the device becomes Written(old device, address, data[..len]); the caller keeps address+len within the device |
| FramDriver.Fram.Read | dummy_fram_driver/fram_driver.c:26-32 | read_FRAM: dest's first len bytes become the device bytes [address, address+len), the rest of dest and the device unchanged |
| Layout.LayoutConstants | BFFS/B-FRAM-FileSystem.h:16-24 | FILE_SIZE is 18, FS_SIZE is 368, data starts right after the superblock, and FS_OFFSET + USABLE_SIZE == FRAM_SIZE |
| Superblock.DecodeEncodeU16 | BFFS/B-FRAM-FileSystem.h:92-95 | a uint16 field's two bytes decode back to the field |
| Superblock.EncodeDecodeU16 | BFFS/B-FRAM-FileSystem.h:92-95 | any two bytes are the encoding of the uint16 they decode to |
| Superblock.EncodeFile | BFFS/B-FRAM-FileSystem.h:88-96 | a file_t occupies FILE_SIZE bytes: name, then read, write, start, end pointers |
| Superblock.EncodeFiles | BFFS/B-FRAM-FileSystem.h:100 | the slot table occupies FILE_SIZE bytes per slot |
| Superblock.EncodeImage | BFFS/B-FRAM-FileSystem.h:98-106 | the superblock occupies exactly FS_SIZE bytes, in field order |
| Superblock.DecodeEncodeFile | BFFS/B-FRAM-FileSystem.h:88-96 | a record's bytes decode back to the record |
| Superblock.EncodeDecodeFile | BFFS/B-FRAM-FileSystem.h:88-96 | any FILE_SIZE bytes are the encoding of the record they decode to |
| Superblock.DecodeEncodeImage | BFFS/B-FRAM-FileSystem.c:4-14 | decoding the bytes save_fs writes gives back every field of the struct |
| Superblock.EncodeDecodeImage | BFFS/B-FRAM-FileSystem.c:4-14 | any FS_SIZE device bytes are the encoding of the struct load_fs reads from them |
| Filenames.Pad | BFFS/B-FRAM-FileSystem.c:87-95 | the zero-initialised temp_str after copying a short name: the name, then zeros to MAX_FILENAME_SIZE |
| Filenames.StrcmpMatches | BFFS/B-FRAM-FileSystem.c:100 | strcmp(temp_str, slot name) == 0, compared character by character, exactly when the field starts with the query followed by a NUL |
| Filenames.StrEqFromPad | BFFS/B-FRAM-FileSystem.c:100 | the character-by-character strcmp agrees with prefix-then-NUL from any position |
| Filenames.StoreName | BFFS/B-FRAM-FileSystem.c:118 | strcpy into a slot: the name and its NUL overwrite the field's prefix, later bytes stay |
| Filenames.StoredNameMatches | BFFS/B-FRAM-FileSystem.c:118 | after the strcpy the field matches the stored name and no other |
| Filenames.CopyName | BFFS/B-FRAM-FileSystem.c:87-95 | the name loop: refuses a name longer than MAX_FILENAME_SIZE, else yields the zero-padded name |
| Engine.SaveFs | BFFS/B-FRAM-FileSystem.c:4-9 | save_fs overwrites device bytes [0, FS_SIZE) with the struct's encoding and keeps every byte after them |
| Engine.CheckFs | BFFS/B-FRAM-FileSystem.c:16-32 | load_fs's verdict is success exactly when the four header conditions hold, else INVALID_FS |
| Engine.LoadFs | BFFS/B-FRAM-FileSystem.c:11-35 | load_fs keeps the decoded struct even when it then rejects it, and leaves the device alone |
| Engine.ResetFs | BFFS/B-FRAM-FileSystem.c:37-54 | reset_fs never touches the file slots |
| Engine.MountFs | BFFS/B-FRAM-FileSystem.c:57-72 | mount_fs returns only SUCCESS, NO_MEMORY or INVALID_FS, never MOUNT_FS_BAD_OPTION |
| Engine.FindFrom | BFFS/B-FRAM-FileSystem.c:98-104 | the slot scan returns the first matching slot of all MAX_FILES, or reports that none matches |
| Engine.CreateFile | BFFS/B-FRAM-FileSystem.c:74-136 | a successful create hands out a handle to one of the MAX_FILES slots |
| Engine.OpenFile | BFFS/B-FRAM-FileSystem.c:138-164 | open_file never writes the device |
| Engine.WriteFile | BFFS/B-FRAM-FileSystem.c:167-197 | every error leaves the state unchanged; success means a valid handle, a buffer and a non-zero length that fits before end_ptr, and the only struct change is that file's write_ptr advancing by len, saved to device bytes [0, FS_SIZE) |
| Engine.ClearFile | BFFS/B-FRAM-FileSystem.c:229-254 | success exactly when the handle is not NULL, which changes nothing; on success both cursors of that file go back to start_ptr, nothing else in the struct changes, and the struct is saved |
| Engine.ReadFile | BFFS/B-FRAM-FileSystem.c:199-227 | read_file never writes the device and yields at most len bytes |
| Engine.SeekFile | BFFS/B-FRAM-FileSystem.c:256-271 | seek_file never writes the device |
| Engine.TellFile | BFFS/B-FRAM-FileSystem.c:273-277 | tell_file is the offset of the read pointer from the start whenever it is not behind it |
| Engine.FsFreeBytes | BFFS/B-FRAM-FileSystem.c:280-283 | free bytes plus write_ptr is end_ptr whenever write_ptr <= end_ptr |
| Engine.FsSize | BFFS/B-FRAM-FileSystem.c:284-287 | size plus start_ptr is end_ptr whenever start_ptr <= end_ptr |
| Engine.FsFreeFileSlots | BFFS/B-FRAM-FileSystem.c:288-291 | free slots plus file_idx is MAX_FILES whenever file_idx <= MAX_FILES |
| Engine.FileFreeBytes | BFFS/B-FRAM-FileSystem.c:301-304 | free bytes plus write_ptr is end_ptr of the file whenever write_ptr <= end_ptr |
| Engine.FileUsedBytes | BFFS/B-FRAM-FileSystem.c:305-308 | start_ptr plus used bytes is write_ptr whenever start_ptr <= write_ptr |
| Engine.FileSize | BFFS/B-FRAM-FileSystem.c:309-312 | start_ptr plus size is end_ptr whenever start_ptr <= end_ptr |
| EngineProps.LoadAfterSave | BFFS/B-FRAM-FileSystem.c:4-35 | load after save reproduces every field, and succeeds exactly when the four checks hold |
| EngineProps.SaveAfterLoad | BFFS/B-FRAM-FileSystem.c:4-35 | save after load writes back the very bytes that were loaded |
| EngineProps.ResetRefusesOversize | BFFS/B-FRAM-FileSystem.c:39-43 | NO_MEMORY with nothing changed exactly when fs_size > USABLE_SIZE; otherwise SUCCESS |
| EngineProps.ResetFormats | BFFS/B-FRAM-FileSystem.c:45-53 | reset sets file_idx 0 and start = write = FS_OFFSET, end = FS_OFFSET + fs_size; slots untouched; saved; the invariant holds; free bytes equal fs_size; a load then succeeds unchanged |
| EngineProps.MaximalResetFillsDevice | BFFS/B-FRAM-FileSystem.h:22-24 | a reset to USABLE_SIZE ends the area exactly at FRAM_SIZE |
| EngineProps.FormattedLoads | BFFS/B-FRAM-FileSystem.c:11-35 | saving a formatted struct and then loading it, directly or through mount_fs with the load option, succeeds and yields exactly that struct |
| EngineProps.StaleNameSurvivesReset | BFFS/B-FRAM-FileSystem.c:45-48 | a name stored before a reset still blocks create_file and is still found by open_file |
| EngineProps.FindFromIff | BFFS/B-FRAM-FileSystem.c:98-104 | the scan finds a slot exactly when some slot holds the name |
| EngineProps.CreateErrorOrder | BFFS/B-FRAM-FileSystem.c:76-114 | each create status holds exactly when its guard is the first to fail (success when none fails); every error leaves the struct and device unchanged and the caller's handle as it was |
| EngineProps.DuplicateNameRejected | BFFS/B-FRAM-FileSystem.c:98-104 | a name held by any of the MAX_FILES slots gives FILENAME_TAKEN, whatever the size |
| EngineProps.EmptyNameCollides | BFFS/B-FRAM-FileSystem.c:98-104 | the empty name collides with any name field starting with NUL, such as an unused slot |
| EngineProps.CreateSucceeds | BFFS/B-FRAM-FileSystem.c:117-135 | slot file_idx gets the name and start = read = write = old write_ptr, end = old write_ptr + size; the handle is that slot; file_idx and write_ptr advance; other slots unchanged; saved; free bytes drop by size |
| EngineProps.CreatePreservesFormatted | BFFS/B-FRAM-FileSystem.c:117-135 | create keeps regions non-empty, contiguous and inside [start_ptr, write_ptr] |
| EngineProps.CreateThenOpen | BFFS/B-FRAM-FileSystem.c:117-161 | opening a just-created name returns the created slot and changes nothing |
| EngineProps.OpenFinds | BFFS/B-FRAM-FileSystem.c:138-164 | open_file succeeds exactly when some slot holds the name, returns the first such slot, and rewinds only its read pointer; a non-NULL handle with no slot holding the name gives exactly FILE_NOT_FOUND, which changes nothing and leaves the caller's handle as it was |
| EngineProps.OpenPreservesFormatted | BFFS/B-FRAM-FileSystem.c:157-158 | rewinding a read pointer keeps the invariant |
| EngineProps.WriteRejects | BFFS/B-FRAM-FileSystem.c:170-188 | each write status holds exactly when its guard is the first to fail (success when none fails), and every error changes nothing |
| EngineProps.WriteStores | BFFS/B-FRAM-FileSystem.c:190-195 | a successful write stores the data at write_ptr, advances only that file's write_ptr, saves the struct, and keeps every other data byte |
| EngineProps.ReadRejects | BFFS/B-FRAM-FileSystem.c:202-220 | each read status holds exactly when its guard is the first to fail (success when none fails), and every error changes nothing and yields nothing |
| EngineProps.ReadReturns | BFFS/B-FRAM-FileSystem.c:222-226 | a successful read yields device bytes [read_ptr, read_ptr+len), resets read_ptr only with READ_FILE_RESET_READ_PTR, and never touches the device or write_ptr |
| EngineProps.KeepCursorReadRepeats | BFFS/B-FRAM-FileSystem.c:223-225 | a keep-cursor read changes nothing, so repeating it returns the same bytes |
| EngineProps.WriteThenRead | BFFS/B-FRAM-FileSystem.c:167-227 | with read_ptr at write_ptr, a write and a rewinding read of the same length return the written bytes |
| EngineProps.ClearEffect | BFFS/B-FRAM-FileSystem.c:229-254 | clear zeroes exactly [start_ptr, end_ptr), rewinds both cursors, saves; tell and used bytes are then 0 |
| EngineProps.ClearThenRead | BFFS/B-FRAM-FileSystem.c:229-254 | after clear, a read from the start returns zeros |
| EngineProps.SeekThenTell | BFFS/B-FRAM-FileSystem.c:256-277 | a NULL handle gives INVALID_FILE_PTR and changes nothing; start_ptr + b > end_ptr gives OVERFLOW and changes nothing; otherwise SUCCESS, the only change in struct and device is that file's read_ptr set to start_ptr + b, and tell_file then returns b |
| EngineProps.RegionsDisjoint | BFFS/B-FRAM-FileSystem.c:121-132 | the region of an earlier slot ends at or before the region of a later slot starts |
| EngineProps.RegionsInArea | BFFS/B-FRAM-FileSystem.c:121-132 | every allocated region lies in [start_ptr, write_ptr], inside the device |
| EngineProps.CoverUpTo | BFFS/B-FRAM-FileSystem.c:121-132 | every address below the end of slot k-1 lies in one of the first k regions |
| EngineProps.RegionsCover | BFFS/B-FRAM-FileSystem.c:121-132 | the regions cover [start_ptr, write_ptr) with no gap |
| EngineProps.WritePreservesFormatted | BFFS/B-FRAM-FileSystem.c:191 | a write keeps the invariant |
| EngineProps.ReadPreservesFormatted | BFFS/B-FRAM-FileSystem.c:223-225 | a read keeps the invariant |
| EngineProps.ClearPreservesFormatted | BFFS/B-FRAM-FileSystem.c:246-247 | a clear keeps the invariant |
| EngineProps.SeekPreservesFormatted | BFFS/B-FRAM-FileSystem.c:269 | a seek keeps the invariant |
| EngineProps.AllocatedSlotInDevice | BFFS/B-FRAM-FileSystem.c:121-132 | every allocated slot lies between the superblock and the device end, as the cursor operations need |
| EngineProps.FsAccessorsExact | BFFS/B-FRAM-FileSystem.c:280-299 | on a valid superblock, free bytes plus used bytes are the size, and free slots plus files are the total slots |
| EngineProps.FileAccessorsExact | BFFS/B-FRAM-FileSystem.c:273-312 | on a created file, free plus used bytes are the size, and tell is within it |
| EngineProps.OverflowGuardAgrees | BFFS/B-FRAM-FileSystem.c:184-185 | the 16-bit guard refuses nothing the full-width guard accepts, and agrees with it when ptr+len fits in 16 bits |
| EngineProps.WrappedLengthPassesGuard | BFFS/B-FRAM-FileSystem.c:184-185 | for a file at [368, 378) and length 65530, the 16-bit guard passes although the range runs past the file and the device |
| Bffs.FileSystem.constructor | BFFS/B-FRAM-FileSystem.h:129 | the global struct starts all zero |
| Bffs.FileSystem.SaveFs | BFFS/B-FRAM-FileSystem.c:4-9 | save_fs's device effect equals Engine.SaveFs; returns SAVE_FS_SUCCESS |
| Bffs.FileSystem.LoadFs | BFFS/B-FRAM-FileSystem.c:11-35 | status and new struct equal Engine.LoadFs |
| Bffs.FileSystem.ResetFs | BFFS/B-FRAM-FileSystem.c:37-54 | status, struct and device equal Engine.ResetFs |
| Bffs.FileSystem.MountFs | BFFS/B-FRAM-FileSystem.c:57-72 | status, struct and device equal Engine.MountFs |
| Bffs.FileSystem.SearchSlots | BFFS/B-FRAM-FileSystem.c:98-104 | the scan loop returns Engine.FindFrom over the slot table: the first matching slot, or none |
| Bffs.FileSystem.CreateFile | BFFS/B-FRAM-FileSystem.c:74-136 | status, caller's handle, struct and device equal Engine.CreateFile |
| Bffs.FileSystem.Allocate | BFFS/B-FRAM-FileSystem.c:117-135 | once every guard has passed, filling slot file_idx, advancing the allocator and saving give the outcome Engine.CreateFile gives |
| Bffs.FileSystem.OpenFile | BFFS/B-FRAM-FileSystem.c:138-164 | status, caller's handle and struct equal Engine.OpenFile |
| Bffs.FileSystem.WriteFile | BFFS/B-FRAM-FileSystem.c:167-197 | status, struct and device equal Engine.WriteFile |
| Bffs.FileSystem.ReadFile | BFFS/B-FRAM-FileSystem.c:199-227 | status and struct equal Engine.ReadFile; the caller's buffer receives its data and is otherwise unchanged |
| Bffs.FileSystem.ZeroRegion | BFFS/B-FRAM-FileSystem.c:240-243 | the per-byte loop of one-byte writes leaves the device as one write of n zeros at start |
| Bffs.FileSystem.ClearFile | BFFS/B-FRAM-FileSystem.c:229-254 | the per-byte loop and the save leave the status, struct and device that Engine.ClearFile gives |
| Bffs.FileSystem.SeekFile | BFFS/B-FRAM-FileSystem.c:256-271 | status and struct equal Engine.SeekFile |
| Scenario.MountFresh | examples/dummy.c:30-32 | a reset mount over a fresh device empties the allocator over the whole usable area |
| Scenario.CreateFirst | examples/dummy.c:47-48 | "file1.txt" of 10 bytes lands in slot 0 at FS_OFFSET |
| Scenario.CreateSecondAndOpen | examples/dummy.c:52-57 | "file2.txt" is created, and opening it gives back the same handle |
| Scenario.WriteThree | examples/dummy.c:67-69 | writing [10, 20, 30] to the new file puts those bytes at FS_OFFSET |
| Scenario.SeekTwo | examples/dummy.c:70-72 | seeking to byte 2 moves the read pointer to FS_OFFSET + 2 and leaves the device alone |
| Scenario.ReadAtCursor | examples/dummy.c:79-81 | a one-byte rewinding read at that cursor yields [30] |
| Scenario.ClearAndRead | examples/dummy.c:81-87 | after a clear, reading three bytes from the start yields [0, 0, 0] |
| Scenario.Demo | examples/dummy.c:30-89 | the whole demo sequence reads [30] and then [0, 0, 0], and the reopened handle equals the created one |

## Left out

- Engine.CreateFile: a name of exactly MAX_FILENAME_SIZE (10) characters is excluded by a precondition. It passes the length loop but leaves temp_str without a terminator, so the later strcmp and strcpy are undefined behaviour.
- Engine.OpenFile: query names of 10 or more characters are excluded by a precondition. The copy loop has no length check: a 10-character name fills temp_str exactly and leaves it without a terminator, so strcmp reads past it, and a longer name overruns temp_str.
- Engine.WriteFile: the model uses the full-width overflow test rather than the 16-bit one (see Findings). write_FRAM has no bounds check, so a write that passes every guard must lie inside the device: Engine.WriteInDevice requires write_ptr + len <= FRAM_SIZE on that path only. Every error return stays modelled, also for slots with end_ptr beyond the device, which load_fs accepts.
- Engine.ReadFile: the same full-width test, and the same bound on the success path only (Engine.ReadInDevice: read_ptr + len <= FRAM_SIZE), because read_FRAM has no bounds check either.
- Engine.ClearFile: requires start_ptr <= end_ptr <= FRAM_SIZE for the slot. The loop compares a uint32 counter with a signed difference, and would run about 2^32 times if start_ptr > end_ptr. Without a bounds check it would also write past the device. The precondition also excludes one well-defined case: an empty region (start_ptr == end_ptr) lying past FRAM_SIZE, where the loop runs zero times. Only load_fs can produce such a slot, because create_file refuses size 0.
- Engine.FsTotalFileSlots and Engine.FsTotalFiles: plain field reads with no contract. FsAccessorsExact relates them to FsFreeFileSlots.
- The superblock's byte image is a fixed little-endian, unpadded encoding. The host's struct layout (endianness, padding) is not modelled.
- A data buffer that aliases the device array is excluded by preconditions.
- The numeric values of the enumerators are not modelled. A datatype keeps the statuses distinct.
- An out-of-range mount option, which would return an uninitialised status, is not modelled: the option is a two-valued datatype.
- get_FRAM_status (dummy_fram_driver/fram_driver.c:13-16) has an empty body and is not modelled.
- The SPI driver, the template driver, the STM32 demo and the older prototype are not part of this model. Of the demo mains, only the call sequence of examples/dummy.c is kept, in Scenario.
- The features the source lists as missing (file deletion, listing) and crash atomicity of the write-through save do not exist in the source.

## Findings

| source | as written | input that shows it | evidently intended | confidence | as-written member | corrected member |
|---|---|---|---|---|---|---|
| BFFS/B-FRAM-FileSystem.c:184-185 and 216-217 | write_file and read_file store ptr + data_length in a uint16_t, then compare it with end_ptr | a file at [368, 378), write_ptr 368, data_length 65530: the stored sum is 362 <= 378, so write_FRAM copies 65530 bytes from address 368, far past the file and the 8192-byte device | refuse any access whose full range ptr + data_length exceeds end_ptr | high (not executed) | Engine.OverflowsAsWritten, EngineProps.WrappedLengthPassesGuard | Engine.Overflows, EngineProps.OverflowGuardAgrees, used by Engine.WriteFile and Engine.ReadFile |
