/**
 * The emulator's stack (class `stack` of emulator_main.cpp): a growable
 * vector of bytes. A value is pushed as the bytes it occupies in memory and
 * popped back byte by byte from the top. The host byte order is taken to be
 * little-endian.
 */
module ByteStack {
  /** The memory image of a 64-bit value, least significant byte first. */
  function Bytes64(v: bv64): (b: seq<bv8>)
    ensures |b| == 8 && Word64(b) == v
  {
    [(v & 0xff) as bv8, ((v >> 8) & 0xff) as bv8, ((v >> 16) & 0xff) as bv8, ((v >> 24) & 0xff) as bv8,
     ((v >> 32) & 0xff) as bv8, ((v >> 40) & 0xff) as bv8, ((v >> 48) & 0xff) as bv8, (v >> 56) as bv8]
  }

  function Word64(b: seq<bv8>): bv64
    requires |b| == 8
  {
    (b[0] as bv64) | ((b[1] as bv64) << 8) | ((b[2] as bv64) << 16) | ((b[3] as bv64) << 24)
      | ((b[4] as bv64) << 32) | ((b[5] as bv64) << 40) | ((b[6] as bv64) << 48) | ((b[7] as bv64) << 56)
  }

  function Bytes32(v: bv32): (b: seq<bv8>)
    ensures |b| == 4 && Word32(b) == v
  {
    [(v & 0xff) as bv8, ((v >> 8) & 0xff) as bv8, ((v >> 16) & 0xff) as bv8, (v >> 24) as bv8]
  }

  function Word32(b: seq<bv8>): bv32
    requires |b| == 4
  {
    (b[0] as bv32) | ((b[1] as bv32) << 8) | ((b[2] as bv32) << 16) | ((b[3] as bv32) << 24)
  }

  function Bytes16(v: bv16): (b: seq<bv8>)
    ensures |b| == 2 && Word16(b) == v
  {
    [(v & 0xff) as bv8, (v >> 8) as bv8]
  }

  function Word16(b: seq<bv8>): bv16
    requires |b| == 2
  {
    (b[0] as bv16) | ((b[1] as bv16) << 8)
  }

  /** Every 8-byte image is the image of exactly one value. */
  lemma Word64Bytes(b: seq<bv8>)
    requires |b| == 8
    ensures Bytes64(Word64(b)) == b
  {
  }

  /** The top `n` bytes of a stack and what lies below them. */
  function Top(s: seq<bv8>, n: nat): seq<bv8>
    requires n <= |s|
  {
    s[|s| - n..]
  }

  function Below(s: seq<bv8>, n: nat): seq<bv8>
    requires n <= |s|
  {
    s[..|s| - n]
  }

  /** What was pushed last is on top, and popping it restores the stack. */
  lemma {:induction false} PushedOnTop(s: seq<bv8>, data: seq<bv8>)
    ensures Top(s + data, |data|) == data && Below(s + data, |data|) == s
  {
    var t := s + data;
    assert |t| - |data| == |s|;
    assert forall k :: 0 <= k < |data| ==> t[|s| + k] == data[k];
  }

  class Stack {
    var bytes: seq<bv8>

    constructor()
      ensures bytes == []
    {
      bytes := [];
    }

    /** `_push_impl`: append the bytes in memory order. */
    method PushImpl(data: seq<bv8>)
      modifies this
      ensures bytes == old(bytes) + data
    {
      bytes := bytes + data;
    }

    /** `_pop_impl`: take `buf.Length` bytes off the top, filling the buffer
        from its end, so that the buffer holds them in their memory order.
        `back()` on an empty vector is undefined, hence the precondition. */
    method PopImpl(buf: array<bv8>)
      requires buf.Length <= |bytes|
      modifies this, buf
      ensures buf[..] == Top(old(bytes), buf.Length)
      ensures bytes == Below(old(bytes), buf.Length)
    {
      ghost var original := bytes;
      var len := buf.Length;
      for i := 0 to len
        invariant bytes == original[..|original| - i]
        invariant buf[len - i..] == original[|original| - i..]
      {
        buf[len - i - 1] := bytes[|bytes| - 1];
        bytes := bytes[..|bytes| - 1];
        assert buf[len - (i + 1)..] == [buf[len - i - 1]] + buf[len - i..];
      }
    }

    method Push64(v: bv64)
      modifies this
      ensures bytes == old(bytes) + Bytes64(v)
    {
      PushImpl(Bytes64(v));
    }

    method Push32(v: bv32)
      modifies this
      ensures bytes == old(bytes) + Bytes32(v)
    {
      PushImpl(Bytes32(v));
    }

    method Push16(v: bv16)
      modifies this
      ensures bytes == old(bytes) + Bytes16(v)
    {
      PushImpl(Bytes16(v));
    }

    method Push8(v: bv8)
      modifies this
      ensures bytes == old(bytes) + [v]
    {
      PushImpl([v]);
    }

    method Pop64() returns (v: bv64)
      requires |bytes| >= 8
      modifies this
      ensures v == Word64(Top(old(bytes), 8)) && bytes == Below(old(bytes), 8)
    {
      var buf := new bv8[8];
      PopImpl(buf);
      v := Word64(buf[..]);
    }

    method Pop32() returns (v: bv32)
      requires |bytes| >= 4
      modifies this
      ensures v == Word32(Top(old(bytes), 4)) && bytes == Below(old(bytes), 4)
    {
      var buf := new bv8[4];
      PopImpl(buf);
      v := Word32(buf[..]);
    }

    method Pop16() returns (v: bv16)
      requires |bytes| >= 2
      modifies this
      ensures v == Word16(Top(old(bytes), 2)) && bytes == Below(old(bytes), 2)
    {
      var buf := new bv8[2];
      PopImpl(buf);
      v := Word16(buf[..]);
    }

    method Pop8() returns (v: bv8)
      requires |bytes| >= 1
      modifies this
      ensures [v] == Top(old(bytes), 1) && bytes == Below(old(bytes), 1)
    {
      var buf := new bv8[1];
      PopImpl(buf);
      v := buf[0];
    }
  }

  /** A 64-bit value pushed and popped comes back, and the stack is as before. */
  lemma PushPop64(s: seq<bv8>, v: bv64)
    ensures Word64(Top(s + Bytes64(v), 8)) == v && Below(s + Bytes64(v), 8) == s
  {
    PushedOnTop(s, Bytes64(v));
  }

  /** Values of mixed widths pushed in turn come back in reverse order: a
      64-bit, a 16-bit and an 8-bit value. */
  lemma MixedLifo(s: seq<bv8>, a: bv64, b: bv16, c: bv8)
    ensures var t := s + Bytes64(a) + Bytes16(b) + [c];
            var t1 := Below(t, 1);
            var t2 := Below(t1, 2);
            Top(t, 1) == [c] && Word16(Top(t1, 2)) == b && Word64(Top(t2, 8)) == a && Below(t2, 8) == s
  {
    PushedOnTop(s + Bytes64(a) + Bytes16(b), [c]);
    PushedOnTop(s + Bytes64(a), Bytes16(b));
    PushedOnTop(s, Bytes64(a));
  }
}
