// The dummy FRAM driver: a global array of FRAM_SIZE bytes that stands in for
// the chip, and two copy loops with no bounds check of their own.
module FramDriver {
  import opened CTypes

  /** Capacity of the device in bytes. */
  const FRAM_SIZE: nat := 8192

  /** The device contents after `data` has been stored from `address` on. */
  function Written(mem: seq<byte>, address: nat, data: seq<byte>): (r: seq<byte>)
    requires address + |data| <= |mem|
    ensures |r| == |mem|
    ensures r[address..address + |data|] == data
    ensures forall i :: 0 <= i < |mem| && !(address <= i < address + |data|) ==> r[i] == mem[i]
  {
    mem[..address] + data + mem[address + |data|..]
  }

  /** A run of `n` zero bytes. */
  function Zeros(n: nat): (z: seq<byte>)
    ensures |z| == n && forall i :: 0 <= i < n ==> z[i] == 0
  {
    seq(n, _ => 0)
  }

  /** Writing nothing leaves the device as it was. */
  lemma WrittenNothing(mem: seq<byte>, address: nat)
    requires address <= |mem|
    ensures Written(mem, address, []) == mem
  {
    assert mem[..address] + [] + mem[address..] == mem;
  }

  /** Storing `data` and then one more byte right after it is storing `data + [b]`. */
  lemma WrittenAppend(mem: seq<byte>, address: nat, data: seq<byte>, b: byte)
    requires address + |data| + 1 <= |mem|
    ensures Written(Written(mem, address, data), address + |data|, [b]) == Written(mem, address, data + [b])
  {
    var lhs := Written(Written(mem, address, data), address + |data|, [b]);
    var rhs := Written(mem, address, data + [b]);
    assert |lhs| == |rhs|;
    forall i | 0 <= i < |lhs| ensures lhs[i] == rhs[i] {
      if address <= i < address + |data| {
        assert lhs[i] == Written(mem, address, data)[i] == data[i - address];
        assert rhs[i] == (data + [b])[i - address];
      } else if i == address + |data| {
        assert rhs[i] == (data + [b])[i - address];
      }
    }
  }

  /** The global FRAM array and the two driver calls over it. */
  class Fram {
    const mem: array<byte>

    /** The global FRAM array of the driver is zero-initialised. */
    constructor ()
      ensures fresh(mem) && mem.Length == FRAM_SIZE
      ensures forall i :: 0 <= i < mem.Length ==> mem[i] == 0
    {
      mem := new byte[FRAM_SIZE](_ => 0);
    }

    /** write_FRAM: copies `len` bytes of `data` to the device from `address` on. */
    method Write(address: nat, len: nat, data: array<byte>)
      requires address + len <= mem.Length && len <= data.Length && data != mem
      modifies mem
      ensures mem[..] == Written(old(mem[..]), address, data[..len])
    {
      var idx := 0;
      WrittenNothing(mem[..], address);
      while idx < len
        invariant idx <= len
        invariant mem[..] == Written(old(mem[..]), address, data[..idx])
      {
        WrittenAppend(old(mem[..]), address, data[..idx], data[idx]);
        assert data[..idx] + [data[idx]] == data[..idx + 1];
        mem[address + idx] := data[idx];
        idx := idx + 1;
      }
      assert data[..idx] == data[..len];
    }

    /** read_FRAM: copies `len` device bytes from `address` on into `dest`; the device is unchanged. */
    method Read(address: nat, len: nat, dest: array<byte>)
      requires address + len <= mem.Length && len <= dest.Length && dest != mem
      modifies dest
      ensures dest[..] == Written(old(dest[..]), 0, mem[address..address + len])
    {
      var idx := 0;
      ghost var orig := dest[..];
      ghost var src := mem[address..address + len];
      WrittenNothing(orig, 0);
      while idx < len
        invariant idx <= len
        invariant mem[address..address + len] == src
        invariant dest[..] == Written(orig, 0, src[..idx])
      {
        assert src[idx] == mem[address + idx];
        WrittenAppend(orig, 0, src[..idx], src[idx]);
        assert src[..idx] + [src[idx]] == src[..idx + 1];
        dest[idx] := mem[address + idx];
        idx := idx + 1;
      }
      assert src[..idx] == src;
    }
  }
}
