/** The binary file format (binary.cpp): a headerless sequence of 8-byte
    records, each an instruction word written most-significant byte first.
    Files are modelled as byte sequences; opening and writing streams is not
    part of the model. */
module Codec {
  import opened Isa

  /** The bytes `htobe64` puts in memory for a word, i.e. the word written
      big-endian. */
  function EncodeWord(w: bv64): (bytes: seq<bv8>)
    ensures |bytes| == WIDTH
    ensures DecodeWord(bytes) == w
  {
    [(w >> 56) as bv8, ((w >> 48) & 0xff) as bv8, ((w >> 40) & 0xff) as bv8, ((w >> 32) & 0xff) as bv8,
     ((w >> 24) & 0xff) as bv8, ((w >> 16) & 0xff) as bv8, ((w >> 8) & 0xff) as bv8, (w & 0xff) as bv8]
  }

  /** `be64toh` applied to an 8-byte record read from a file. */
  function DecodeWord(bytes: seq<bv8>): bv64
    requires |bytes| == WIDTH
  {
    ((bytes[0] as bv64) << 56) | ((bytes[1] as bv64) << 48) | ((bytes[2] as bv64) << 40)
      | ((bytes[3] as bv64) << 32) | ((bytes[4] as bv64) << 24) | ((bytes[5] as bv64) << 16)
      | ((bytes[6] as bv64) << 8) | (bytes[7] as bv64)
  }

  /** Every 8-byte record is the encoding of exactly one word. */
  lemma EncodeDecodeWord(bytes: seq<bv8>)
    requires |bytes| == WIDTH
    ensures EncodeWord(DecodeWord(bytes)) == bytes
  {
  }

  /** The whole output of `save_binary`: one record per word, in list order. */
  function Encode(ws: seq<bv64>): (bytes: seq<bv8>)
    ensures |bytes| == WIDTH * |ws|
  {
    if ws == [] then [] else EncodeWord(ws[0]) + Encode(ws[1..])
  }

  lemma {:induction false} EncodeAppend(a: seq<bv64>, b: seq<bv64>)
    ensures Encode(a + b) == Encode(a) + Encode(b)
  {
    if a == [] {
      assert a + b == b;
    } else {
      assert (a + b)[1..] == a[1..] + b;
      EncodeAppend(a[1..], b);
    }
  }

  /** Record k of the output is word k, most significant byte first. */
  lemma {:induction false} EncodeAt(ws: seq<bv64>, k: nat)
    requires k < |ws|
    ensures Encode(ws)[WIDTH * k..WIDTH * k + WIDTH] == EncodeWord(ws[k])
  {
    var first := EncodeWord(ws[0]);
    var rest := Encode(ws[1..]);
    assert Encode(ws) == first + rest;
    if k == 0 {
      assert (first + rest)[..WIDTH] == first;
    } else {
      EncodeAt(ws[1..], k - 1);
      assert (first + rest)[WIDTH * k..WIDTH * k + WIDTH] == rest[WIDTH * (k - 1)..WIDTH * (k - 1) + WIDTH];
    }
  }

  /** `save_binary`: the loop over the words, each written as one record. */
  method Save(ws: seq<bv64>) returns (bytes: seq<bv8>)
    ensures bytes == Encode(ws)
  {
    bytes := [];
    var i := 0;
    while i < |ws|
      invariant i <= |ws|
      invariant bytes == Encode(ws[..i])
    {
      EncodeAppend(ws[..i], [ws[i]]);
      assert ws[..i + 1] == ws[..i] + [ws[i]];
      bytes := bytes + EncodeWord(ws[i]);
      i := i + 1;
    }
    assert ws[..i] == ws;
  }

  function Zeros(n: nat): (z: seq<bv8>)
    ensures |z| == n && forall i :: 0 <= i < n ==> z[i] == 0
  {
    seq(n, _ => 0)
  }

  /** What `load_binary` returns for a file's contents. The end-of-file flag
      is only raised by a read that runs short, so after the last full record
      one more read happens: a short tail of k < 8 bytes, or nothing at all,
      becomes one final record whose first k bytes come from the file and
      whose remaining bytes stay zero. */
  function LoadSpec(file: seq<bv8>): (ws: seq<bv64>)
    ensures |ws| == |file| / WIDTH + 1
    decreases |file|
  {
    if |file| >= WIDTH then [DecodeWord(file[..WIDTH])] + LoadSpec(file[WIDTH..])
    else [DecodeWord(file + Zeros(WIDTH - |file|))]
  }

  /** `load_binary`: `while(!fin.eof())` reading up to 8 bytes into a zeroed
      record, converting it from big-endian and appending it. */
  method Load(file: seq<bv8>) returns (ws: seq<bv64>)
    ensures ws == LoadSpec(file)
  {
    ws := [];
    var pos := 0;
    var eof := false;
    while !eof
      invariant pos <= |file|
      invariant !eof ==> ws + LoadSpec(file[pos..]) == LoadSpec(file)
      invariant eof ==> ws == LoadSpec(file)
      decreases |file| - pos, if eof then 0 else 1
    {
      var k := if |file| - pos < WIDTH then |file| - pos else WIDTH;
      var record := file[pos..pos + k] + Zeros(WIDTH - k);
      if k < WIDTH {
        eof := true;
        assert file[pos..] == file[pos..pos + k];
      } else {
        assert file[pos..][..WIDTH] == file[pos..pos + k];
        assert file[pos..][WIDTH..] == file[pos + k..];
        assert record == file[pos..pos + k];
      }
      ws := ws + [DecodeWord(record)];
      pos := pos + k;
    }
  }

  lemma DropRecord(n: nat)
    requires n >= WIDTH
    ensures (n - WIDTH) % WIDTH == n % WIDTH && (n - WIDTH) / WIDTH == n / WIDTH - 1
  {
  }

  /** Every full record of the file is converted from big-endian, in order. */
  lemma {:induction false} LoadFullRecords(file: seq<bv8>, j: nat)
    requires j < |file| / WIDTH
    ensures LoadSpec(file)[j] == DecodeWord(file[WIDTH * j..WIDTH * j + WIDTH])
    decreases |file|
  {
    if j > 0 {
      DropRecord(|file|);
      LoadFullRecords(file[WIDTH..], j - 1);
      assert file[WIDTH..][WIDTH * (j - 1)..WIDTH * (j - 1) + WIDTH] == file[WIDTH * j..WIDTH * j + WIDTH];
    }
  }

  /** Reading back what `save_binary` wrote yields the words followed by one
      spurious all-zero record. */
  lemma {:induction false} LoadSaved(ws: seq<bv64>)
    ensures LoadSpec(Encode(ws)) == ws + [0]
  {
    if ws == [] {
      assert Encode(ws) + Zeros(WIDTH) == Zeros(WIDTH);
    } else {
      var bytes := Encode(ws);
      assert bytes[..WIDTH] == EncodeWord(ws[0]);
      assert bytes[WIDTH..] == Encode(ws[1..]);
      LoadSaved(ws[1..]);
      assert ws + [0] == [ws[0]] + (ws[1..] + [0]);
    }
  }

  /** A trailing partial record of k bytes becomes one last word whose k
      leading (most significant) bytes are the file's and whose others are zero. */
  lemma {:induction false} LoadPartialTail(file: seq<bv8>)
    requires |file| % WIDTH != 0
    ensures var k := |file| % WIDTH;
            var last := LoadSpec(file)[|file| / WIDTH];
            EncodeWord(last) == file[|file| - k..] + Zeros(WIDTH - k)
    decreases |file|
  {
    if |file| >= WIDTH {
      var rest := file[WIDTH..];
      DropRecord(|file|);
      LoadPartialTail(rest);
      var k := |file| % WIDTH;
      assert LoadSpec(file)[|file| / WIDTH] == LoadSpec(rest)[|rest| / WIDTH];
      assert rest[|rest| - k..] == file[|file| - k..];
    } else {
      EncodeDecodeWord(file + Zeros(WIDTH - |file|));
    }
  }
}
