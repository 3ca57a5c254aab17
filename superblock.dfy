// The byte image that save_fs writes to device address 0 and load_fs reads
// back: the file_system_t struct field by field, each uint16 little-endian.
module Superblock {
  import opened CTypes
  import opened Layout

  /** Offset of the four top-level fields, after the MAX_FILES slots. */
  const HEADER_AT: nat := FILE_SIZE * MAX_FILES

  function EncodeU16(x: u16): (r: seq<byte>)
    ensures |r| == 2
  {
    [x % 0x100, x / 0x100]
  }

  function DecodeU16(b: seq<byte>, at: nat): u16
    requires at + 2 <= |b|
  {
    b[at] as int + 0x100 * (b[at + 1] as int)
  }

  lemma DecodeEncodeU16(x: u16)
    ensures DecodeU16(EncodeU16(x), 0) == x
  {
  }

  lemma EncodeDecodeU16(b: seq<byte>, at: nat)
    requires at + 2 <= |b|
    ensures EncodeU16(DecodeU16(b, at)) == b[at..at + 2]
  {
    var x := DecodeU16(b, at);
    assert x % 0x100 == b[at] && x / 0x100 == b[at + 1];
  }

  /** One file_t: the name field, then read, write, start and end pointers. */
  function EncodeFile(f: FileRec): (r: seq<byte>)
    ensures |r| == FILE_SIZE
  {
    f.filename + EncodeU16(f.readPtr) + EncodeU16(f.writePtr) + EncodeU16(f.startPtr) + EncodeU16(f.endPtr)
  }

  function DecodeFile(b: seq<byte>, at: nat): (f: FileRec)
    requires at + FILE_SIZE <= |b|
  {
    FileRec(b[at..at + MAX_FILENAME_SIZE], DecodeU16(b, at + 10), DecodeU16(b, at + 12),
            DecodeU16(b, at + 14), DecodeU16(b, at + 16))
  }

  function EncodeFiles(fs: seq<FileRec>): (r: seq<byte>)
    ensures |r| == |fs| * FILE_SIZE
  {
    if fs == [] then [] else EncodeFile(fs[0]) + EncodeFiles(fs[1..])
  }

  /** The whole struct: the slots in order, then file_idx, write_ptr, end_ptr, start_ptr. */
  function EncodeImage(img: Image): (r: seq<byte>)
    ensures |r| == FS_SIZE
  {
    EncodeFiles(img.files) + EncodeU16(img.fileIdx) + EncodeU16(img.writePtr)
      + EncodeU16(img.endPtr) + EncodeU16(img.startPtr)
  }

  function DecodeImage(b: seq<byte>): (img: Image)
    requires |b| == FS_SIZE
  {
    Image(seq(MAX_FILES, i requires 0 <= i < MAX_FILES => DecodeFile(b, i * FILE_SIZE)),
          DecodeU16(b, HEADER_AT), DecodeU16(b, HEADER_AT + 2),
          DecodeU16(b, HEADER_AT + 4), DecodeU16(b, HEADER_AT + 6))
  }

  /** Decoding a record reads only its own FILE_SIZE bytes. */
  lemma DecodeFileLocal(b: seq<byte>, at: nat)
    requires at + FILE_SIZE <= |b|
    ensures DecodeFile(b, at) == DecodeFile(b[at..at + FILE_SIZE], 0)
  {
    var c := b[at..at + FILE_SIZE];
    assert c[0..MAX_FILENAME_SIZE] == b[at..at + MAX_FILENAME_SIZE];
  }

  /** A uint16 encoded in the middle of a byte string decodes back at its offset. */
  lemma DecodeU16Within(p: seq<byte>, x: u16, q: seq<byte>)
    ensures DecodeU16(p + EncodeU16(x) + q, |p|) == x
  {
    var b := p + EncodeU16(x) + q;
    assert b[|p|] == EncodeU16(x)[0] && b[|p| + 1] == EncodeU16(x)[1];
  }

  lemma {:induction false} DecodeEncodeFile(f: FileRec)
    ensures DecodeFile(EncodeFile(f), 0) == f
  {
    var n, r, w, st, e := f.filename, EncodeU16(f.readPtr), EncodeU16(f.writePtr), EncodeU16(f.startPtr), EncodeU16(f.endPtr);
    var b := EncodeFile(f);
    assert b == n + r + w + st + e;
    assert b[0..MAX_FILENAME_SIZE] == n;
    assert b == n + r + (w + st + e);
    DecodeU16Within(n, f.readPtr, w + st + e);
    assert b == (n + r) + w + (st + e);
    DecodeU16Within(n + r, f.writePtr, st + e);
    assert b == (n + r + w) + st + e;
    DecodeU16Within(n + r + w, f.startPtr, e);
    assert b == (n + r + w + st) + e + [];
    DecodeU16Within(n + r + w + st, f.endPtr, []);
  }

  /** Any FILE_SIZE bytes are the encoding of the record they decode to. */
  lemma EncodeDecodeFile(c: seq<byte>)
    requires |c| == FILE_SIZE
    ensures EncodeFile(DecodeFile(c, 0)) == c
  {
    var f := DecodeFile(c, 0);
    EncodeDecodeU16(c, 10);
    EncodeDecodeU16(c, 12);
    EncodeDecodeU16(c, 14);
    EncodeDecodeU16(c, 16);
    assert EncodeFile(f) == c[..10] + c[10..12] + c[12..14] + c[14..16] + c[16..18];
    assert c == c[..10] + c[10..12] + c[12..14] + c[14..16] + c[16..18];
  }

  /** A slice lying wholly in the second part of a concatenation is a slice of that part. */
  lemma SliceOfAppend(a: seq<byte>, c: seq<byte>, lo: nat, hi: nat)
    requires |a| <= lo <= hi <= |a| + |c|
    ensures (a + c)[lo..hi] == c[lo - |a|..hi - |a|]
  {
  }

  /** The `i`-th FILE_SIZE chunk of the encoded slots is the encoding of slot `i`. */
  lemma {:induction false} EncodeFilesChunk(fs: seq<FileRec>, i: nat)
    requires i < |fs|
    ensures EncodeFiles(fs)[i * FILE_SIZE..i * FILE_SIZE + FILE_SIZE] == EncodeFile(fs[i])
  {
    var e := EncodeFiles(fs);
    if i == 0 {
      assert e == EncodeFile(fs[0]) + EncodeFiles(fs[1..]);
    } else {
      EncodeFilesChunk(fs[1..], i - 1);
      var rest := EncodeFiles(fs[1..]);
      assert e == EncodeFile(fs[0]) + rest;
      var k := (i - 1) * FILE_SIZE;
      assert i * FILE_SIZE == k + FILE_SIZE;
      SliceOfAppend(EncodeFile(fs[0]), rest, k + FILE_SIZE, k + 2 * FILE_SIZE);
    }
  }

  /** Bytes that chunk by chunk encode the slots are their encoding. */
  lemma {:induction false} EncodeFilesFromChunks(fs: seq<FileRec>, b: seq<byte>)
    requires |b| == |fs| * FILE_SIZE
    requires forall j :: 0 <= j < |fs| ==> EncodeFile(fs[j]) == b[j * FILE_SIZE..j * FILE_SIZE + FILE_SIZE]
    ensures EncodeFiles(fs) == b
  {
    if fs != [] {
      forall j | 0 <= j < |fs| - 1
        ensures EncodeFile(fs[1..][j]) == b[FILE_SIZE..][j * FILE_SIZE..j * FILE_SIZE + FILE_SIZE]
      {
        assert EncodeFile(fs[j + 1]) == b[(j + 1) * FILE_SIZE..(j + 1) * FILE_SIZE + FILE_SIZE];
      }
      EncodeFilesFromChunks(fs[1..], b[FILE_SIZE..]);
      assert b == b[..FILE_SIZE] + b[FILE_SIZE..];
    }
  }

  /** Round trip: loading the bytes that saving wrote reproduces every field of the superblock. */
  lemma {:induction false} DecodeEncodeImage(img: Image)
    ensures DecodeImage(EncodeImage(img)) == img
  {
    var b := EncodeImage(img);
    var e := EncodeFiles(img.files);
    assert b[..HEADER_AT] == e;
    var d := DecodeImage(b);
    forall i | 0 <= i < MAX_FILES ensures d.files[i] == img.files[i] {
      DecodeFileLocal(b, i * FILE_SIZE);
      EncodeFilesChunk(img.files, i);
      assert b[i * FILE_SIZE..i * FILE_SIZE + FILE_SIZE] == e[i * FILE_SIZE..i * FILE_SIZE + FILE_SIZE];
      DecodeEncodeFile(img.files[i]);
    }
    assert b[HEADER_AT..HEADER_AT + 2] == EncodeU16(img.fileIdx);
    assert b[HEADER_AT + 2..HEADER_AT + 4] == EncodeU16(img.writePtr);
    assert b[HEADER_AT + 4..HEADER_AT + 6] == EncodeU16(img.endPtr);
    assert b[HEADER_AT + 6..HEADER_AT + 8] == EncodeU16(img.startPtr);
  }

  /** Round trip the other way: saving what was loaded writes back the very same bytes. */
  lemma {:induction false} EncodeDecodeImage(b: seq<byte>)
    requires |b| == FS_SIZE
    ensures EncodeImage(DecodeImage(b)) == b
  {
    var d := DecodeImage(b);
    forall j | 0 <= j < MAX_FILES
      ensures EncodeFile(d.files[j]) == b[..HEADER_AT][j * FILE_SIZE..j * FILE_SIZE + FILE_SIZE]
    {
      var c := b[j * FILE_SIZE..j * FILE_SIZE + FILE_SIZE];
      DecodeFileLocal(b, j * FILE_SIZE);
      EncodeDecodeFile(c);
      assert b[..HEADER_AT][j * FILE_SIZE..j * FILE_SIZE + FILE_SIZE] == c;
    }
    EncodeFilesFromChunks(d.files, b[..HEADER_AT]);
    EncodeDecodeU16(b, HEADER_AT);
    EncodeDecodeU16(b, HEADER_AT + 2);
    EncodeDecodeU16(b, HEADER_AT + 4);
    EncodeDecodeU16(b, HEADER_AT + 6);
    assert b == b[..HEADER_AT] + b[HEADER_AT..HEADER_AT + 2] + b[HEADER_AT + 2..HEADER_AT + 4]
              + b[HEADER_AT + 4..HEADER_AT + 6] + b[HEADER_AT + 6..HEADER_AT + 8];
  }
}
