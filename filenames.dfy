// File names as create_file and open_file handle them: the query is copied
// into a zeroed MAX_FILENAME_SIZE buffer (temp_str), compared with each slot's
// raw name field by strcmp, and stored by strcpy.
module Filenames {
  import opened CTypes
  import opened Wrappers
  import opened Layout

  /** The characters of a C string: no NUL before its terminator. */
  predicate IsCString(q: seq<byte>) {
    forall i :: 0 <= i < |q| ==> q[i] != 0
  }

  /** temp_str: the query followed by zero bytes up to MAX_FILENAME_SIZE. */
  function Pad(q: seq<byte>): (t: seq<byte>)
    requires |q| < MAX_FILENAME_SIZE
    ensures |t| == MAX_FILENAME_SIZE && t[..|q|] == q
    ensures forall k :: |q| <= k < MAX_FILENAME_SIZE ==> t[k] == 0
  {
    q + seq(MAX_FILENAME_SIZE - |q|, _ => 0)
  }

  /** strcmp(a, b) == 0, looking from index `k` on; `a` holds a NUL at or after `k`. */
  function StrEqFrom(a: seq<byte>, b: seq<byte>, k: nat): bool
    requires k < |a| <= |b| && 0 in a[k..]
    decreases |a| - k
  {
    if a[k] != b[k] then false
    else if a[k] == 0 then true
    else
      assert 0 in a[k + 1..] by {
        var j :| k <= j < |a| && a[j] == 0;
        assert a[k + 1..][j - k - 1] == 0;
      }
      StrEqFrom(a, b, k + 1)
  }

  /** strcmp(temp_str, raw) == 0 for the query `q` and a slot's raw name field. */
  predicate StrcmpEqual(q: seq<byte>, raw: seq<byte>)
    requires |q| < MAX_FILENAME_SIZE && |raw| == MAX_FILENAME_SIZE
  {
    assert Pad(q)[|q|] == 0 && 0 in Pad(q)[0..];
    StrEqFrom(Pad(q), raw, 0)
  }

  /** A slot's name field holds the query: the query's bytes, then a NUL. */
  predicate Matches(q: seq<byte>, raw: seq<byte>)
    requires |q| < MAX_FILENAME_SIZE && |raw| == MAX_FILENAME_SIZE
  {
    raw[..|q|] == q && raw[|q|] == 0
  }

  lemma {:induction false} StrEqFromPad(q: seq<byte>, raw: seq<byte>, k: nat)
    requires IsCString(q) && |q| < MAX_FILENAME_SIZE && |raw| == MAX_FILENAME_SIZE && k <= |q|
    ensures Pad(q)[|q|] == 0 && 0 in Pad(q)[k..]
    ensures StrEqFrom(Pad(q), raw, k) <==> raw[k..|q|] == q[k..] && raw[|q|] == 0
    decreases |q| - k
  {
    var t := Pad(q);
    assert t[k..][|q| - k] == 0;
    if k < |q| {
      StrEqFromPad(q, raw, k + 1);
      assert t[k] == q[k] != 0;
      if raw[k] == q[k] {
        assert raw[k..|q|] == [raw[k]] + raw[k + 1..|q|];
        assert q[k..] == [q[k]] + q[k + 1..];
      } else {
        assert raw[k..|q|][0] != q[k..][0];
      }
    }
  }

  /** strcmp of the padded query with a name field reports equality exactly when the field holds the query. */
  lemma StrcmpMatches(q: seq<byte>, raw: seq<byte>)
    requires IsCString(q) && |q| < MAX_FILENAME_SIZE && |raw| == MAX_FILENAME_SIZE
    ensures StrcmpEqual(q, raw) <==> Matches(q, raw)
  {
    StrEqFromPad(q, raw, 0);
  }

  /** strcpy(slot, temp_str): the query and its NUL; the bytes after the NUL keep their old values. */
  function StoreName(q: seq<byte>, raw: seq<byte>): (r: seq<byte>)
    requires |q| < MAX_FILENAME_SIZE && |raw| == MAX_FILENAME_SIZE
    ensures |r| == MAX_FILENAME_SIZE
    ensures r[..|q|] == q && r[|q|] == 0 && r[|q| + 1..] == raw[|q| + 1..]
  {
    Pad(q)[..|q| + 1] + raw[|q| + 1..]
  }

  /** After strcpy, the slot holds the name that was stored, and no other. */
  lemma StoredNameMatches(q: seq<byte>, raw: seq<byte>, other: seq<byte>)
    requires IsCString(q) && |q| < MAX_FILENAME_SIZE && |raw| == MAX_FILENAME_SIZE
    requires IsCString(other) && |other| < MAX_FILENAME_SIZE
    ensures Matches(q, StoreName(q, raw))
    ensures Matches(other, StoreName(q, raw)) <==> other == q
  {
    var s := StoreName(q, raw);
    assert s[..|q|] == q && s[|q|] == 0;
  }

  /**
   * The name loop of create_file: copies the query into temp_str and refuses a
   * query whose character at index MAX_FILENAME_SIZE is not the terminator.
   */
  method CopyName(name: seq<byte>) returns (temp: Option<seq<byte>>)
    requires IsCString(name) && |name| != MAX_FILENAME_SIZE
    ensures temp.None? <==> |name| > MAX_FILENAME_SIZE
    ensures temp.Some? ==> |name| < MAX_FILENAME_SIZE && temp.value == Pad(name)
  {
    var buf: seq<byte> := seq(MAX_FILENAME_SIZE, _ => 0);
    var idx := 0;
    while idx < |name|
      invariant idx <= |name| && idx <= MAX_FILENAME_SIZE && |buf| == MAX_FILENAME_SIZE
      invariant buf[..idx] == name[..idx]
      invariant forall k :: idx <= k < MAX_FILENAME_SIZE ==> buf[k] == 0
    {
      if idx == MAX_FILENAME_SIZE {
        return None;
      }
      buf := buf[idx := name[idx]];
      idx := idx + 1;
    }
    assert buf == Pad(name);
    return Some(buf);
  }
}
