/** Strings in the binary tensor format: each one preceded by its length in four bytes,
    least significant byte first. */
module RawContents {
  import opened Common

  type byte = x: int | 0 <= x < 256

  const LENGTH_LIMIT := 0x1_0000_0000

  // ---- the format ----

  function Power(k: nat): nat {
    if k == 0 then 1 else 256 * Power(k - 1)
  }

  /** The k low bytes of n, least significant first. */
  function Bytes(n: nat, k: nat): (r: seq<byte>)
    ensures |r| == k
  {
    if k == 0 then [] else [n % 256] + Bytes(n / 256, k - 1)
  }

  function Number(b: seq<byte>): nat {
    if b == [] then 0
    else
      var first: int := b[0];
      first + 256 * Number(b[1..])
  }

  lemma {:induction false} NumberOfBytes(n: nat, k: nat)
    requires n < Power(k)
    ensures Number(Bytes(n, k)) == n
  {
    if k > 0 {
      NumberOfBytes(n / 256, k - 1);
      assert Bytes(n, k)[1..] == Bytes(n / 256, k - 1);
    }
  }

  lemma {:induction false} BytesOfNumber(b: seq<byte>)
    ensures Number(b) < Power(|b|) && Bytes(Number(b), |b|) == b
  {
    if b != [] {
      BytesOfNumber(b[1..]);
      var first: int := b[0];
      assert Number(b) / 256 == Number(b[1..]) && Number(b) % 256 == first;
      assert b == [b[0]] + b[1..];
    }
  }

  lemma FourBytes()
    ensures Power(4) == LENGTH_LIMIT
  {
    assert Power(2) == 65536;
    assert Power(3) == 16777216;
  }

  function LengthBytes(n: nat): (r: seq<byte>)
    ensures |r| == 4
  {
    Bytes(n, 4)
  }

  function ReadLength(b: seq<byte>): (r: nat)
    requires |b| >= 4
    ensures r < LENGTH_LIMIT
  {
    BytesOfNumber(b[..4]);
    FourBytes();
    Number(b[..4])
  }

  /** The length prefix is little-endian. */
  lemma LittleEndian(b: seq<byte>)
    requires |b| >= 4
    ensures var b0: int, b1: int, b2: int, b3: int := b[0], b[1], b[2], b[3];
            ReadLength(b) == b0 + 0x100 * b1 + 0x1_0000 * b2 + 0x100_0000 * b3
  {
    var c := b[..4];
    assert c[1..][1..][1..][1..] == [];
    assert Number(c[1..][1..][1..]) == c[3];
    assert Number(c[1..][1..]) == c[2] + 256 * Number(c[1..][1..][1..]);
    assert Number(c[1..]) == c[1] + 256 * Number(c[1..][1..]);
  }

  lemma LengthRoundTrip(n: nat, rest: seq<byte>)
    requires n < LENGTH_LIMIT
    ensures ReadLength(LengthBytes(n) + rest) == n
  {
    FourBytes();
    NumberOfBytes(n, 4);
    assert (LengthBytes(n) + rest)[..4] == LengthBytes(n);
  }

  lemma LengthBytesUnique(b: seq<byte>)
    requires |b| == 4
    ensures LengthBytes(ReadLength(b)) == b
  {
    assert b[..4] == b;
    BytesOfNumber(b);
  }

  ghost predicate Encodable(strings: seq<seq<byte>>) {
    forall i :: 0 <= i < |strings| ==> |strings[i]| < LENGTH_LIMIT
  }

  function Encode(strings: seq<seq<byte>>): seq<byte>
    requires Encodable(strings)
  {
    if strings == [] then []
    else LengthBytes(|strings[0]|) + strings[0] + Encode(strings[1..])
  }

  function MaxLength(strings: seq<seq<byte>>): nat {
    if strings == [] then 0
    else
      var m := MaxLength(strings[..|strings| - 1]);
      if m < |strings[|strings| - 1]| then |strings[|strings| - 1]| else m
  }

  /** The strings of a buffer, if it is made of nothing else. */
  function Decode(b: seq<byte>): (r: Option<seq<seq<byte>>>)
    ensures r.Some? ==> Encodable(r.value)
  {
    if b == [] then Some([])
    else if |b| < 4 || 4 + ReadLength(b) > |b| then None
    else
      var n := ReadLength(b);
      var rest := Decode(b[4 + n..]);
      if rest.None? then None else Some([b[4..4 + n]] + rest.value)
  }

  lemma DecodeFirst(s: seq<byte>, rest: seq<byte>)
    requires |s| < LENGTH_LIMIT && Decode(rest).Some?
    ensures Decode(LengthBytes(|s|) + s + rest) == Some([s] + Decode(rest).value)
  {
    var b := LengthBytes(|s|) + s + rest;
    assert b == LengthBytes(|s|) + (s + rest);
    LengthRoundTrip(|s|, s + rest);
    assert b[4..4 + |s|] == s && b[4 + |s|..] == rest;
  }

  lemma {:induction false} DecodeEncode(strings: seq<seq<byte>>)
    requires Encodable(strings)
    ensures Decode(Encode(strings)) == Some(strings)
  {
    if strings != [] {
      DecodeEncode(strings[1..]);
      DecodeFirst(strings[0], Encode(strings[1..]));
      assert [strings[0]] + strings[1..] == strings;
    }
  }

  lemma {:induction false} EncodeDecode(b: seq<byte>)
    requires Decode(b).Some?
    ensures Encode(Decode(b).value) == b
    decreases |b|
  {
    if b != [] {
      var n := ReadLength(b);
      EncodeDecode(b[4 + n..]);
      EncodeFirst(b[4..4 + n], Decode(b[4 + n..]).value);
      SplitFirst(b, n);
    }
  }

  lemma EncodeFirst(s: seq<byte>, rest: seq<seq<byte>>)
    requires |s| < LENGTH_LIMIT && Encodable(rest)
    ensures Encodable([s] + rest) && Encode([s] + rest) == LengthBytes(|s|) + s + Encode(rest)
  {
    assert ([s] + rest)[1..] == rest;
  }

  lemma SplitFirst(b: seq<byte>, n: nat)
    requires 4 + n <= |b| && n == ReadLength(b)
    ensures LengthBytes(n) + b[4..4 + n] + b[4 + n..] == b
  {
    LengthBytesUnique(b[..4]);
    assert b[..4][..4] == b[..4];
    assert b[..4] + b[4..4 + n] + b[4 + n..] == b;
  }

  /** A buffer can be read in one way only. */
  lemma UniqueDecomposition(a: seq<seq<byte>>, b: seq<seq<byte>>)
    requires Encodable(a) && Encodable(b) && Encode(a) == Encode(b)
    ensures a == b
  {
    DecodeEncode(a);
    DecodeEncode(b);
  }

  // ---- the scan ----

  datatype Status = OK | INVALID_INPUT_FORMAT

  function Prepend(done: seq<seq<byte>>, rest: Option<seq<seq<byte>>>): Option<seq<seq<byte>>> {
    if rest.None? then None else Some(done + rest.value)
  }

  /** What the scan knows about a buffer when it is at some offset: up to there it has
      read "done"; past the end there is nothing to decode. */
  ghost predicate Scanned(buffer: seq<byte>, offset: nat, done: seq<seq<byte>>) {
    if offset <= |buffer| then Decode(buffer) == Prepend(done, Decode(buffer[offset..]))
    else Decode(buffer) == None
  }

  lemma ScanStarts(buffer: seq<byte>)
    ensures Scanned(buffer, 0, [])
  {
    assert buffer[0..] == buffer;
    if Decode(buffer).Some? {
      assert [] + Decode(buffer).value == Decode(buffer).value;
    }
  }

  /** The string at offset, as far as it is in the buffer. */
  function StringAt(buffer: seq<byte>, offset: nat): seq<byte>
    requires offset + 4 <= |buffer|
  {
    var n := ReadLength(buffer[offset..]);
    if offset + 4 + n <= |buffer| then buffer[offset + 4..offset + 4 + n] else []
  }

  lemma ScanOne(buffer: seq<byte>, offset: nat, done: seq<seq<byte>>)
    requires offset + 4 <= |buffer| && Scanned(buffer, offset, done)
    ensures var n := ReadLength(buffer[offset..]);
            && Scanned(buffer, offset + 4 + n, done + [StringAt(buffer, offset)])
            && (offset + 4 + n <= |buffer| ==> |StringAt(buffer, offset)| == n)
            && MaxLength(done + [StringAt(buffer, offset)])
               == if MaxLength(done) < |StringAt(buffer, offset)| then |StringAt(buffer, offset)| else MaxLength(done)
  {
    var rest := buffer[offset..];
    var n := ReadLength(rest);
    var s := StringAt(buffer, offset);
    assert (done + [s])[..|done|] == done;
    if offset + 4 + n <= |buffer| {
      assert rest[4 + n..] == buffer[offset + 4 + n..] && rest[4..4 + n] == s;
      PrependOne(done, s, Decode(rest[4 + n..]));
    }
  }

  /** batchSize and width are overwritten on success and keep their values otherwise. */
  method GetRawInputContentsBatchSizeAndWidth(buffer: seq<byte>, batchSizeBefore: int, widthBefore: nat)
    returns (status: Status, batchSize: int, width: nat)
    ensures status == OK <==> exists strings :: Encodable(strings) && Encode(strings) == buffer
    ensures forall strings :: Encodable(strings) && Encode(strings) == buffer ==>
              batchSize == ToInt32(|strings|) && width == MaxLength(strings) + 1
    ensures status != OK ==> batchSize == batchSizeBefore && width == widthBefore
  {
    batchSize, width := batchSizeBefore, widthBefore;
    var offset, tmpBatchSize, tmpMaxStringLength := 0, 0, 0;
    ghost var done: seq<seq<byte>> := [];
    ScanStarts(buffer);
    while offset + 4 <= |buffer|
      invariant 0 <= offset && Scanned(buffer, offset, done)
      invariant offset <= |buffer| ==> tmpBatchSize == |done| && tmpMaxStringLength == MaxLength(done)
      decreases |buffer| - offset
    {
      var inputSize := ReadLength(buffer[offset..]);
      ScanOne(buffer, offset, done);
      done := done + [StringAt(buffer, offset)];
      tmpMaxStringLength := if tmpMaxStringLength < inputSize then inputSize else tmpMaxStringLength;
      offset := offset + 4 + inputSize;
      tmpBatchSize := tmpBatchSize + 1;
    }
    DecodeOnly(buffer);
    if offset > |buffer| {
      status := INVALID_INPUT_FORMAT;
    } else if offset < |buffer| {
      status := INVALID_INPUT_FORMAT;
    } else {
      ScanEnds(buffer, done);
      status, batchSize, width := OK, ToInt32(tmpBatchSize), tmpMaxStringLength + 1;
    }
  }

  lemma ScanEnds(buffer: seq<byte>, done: seq<seq<byte>>)
    requires Scanned(buffer, |buffer|, done)
    ensures Decode(buffer) == Some(done)
  {
    assert buffer[|buffer|..] == [];
    assert done + [] == done;
  }

  lemma PrependOne(done: seq<seq<byte>>, s: seq<byte>, rest: Option<seq<seq<byte>>>)
    ensures Prepend(done, Prepend([s], rest)) == Prepend(done + [s], rest)
  {
    if rest.Some? {
      assert done + ([s] + rest.value) == done + [s] + rest.value;
    }
  }

  lemma DecodeOnly(b: seq<byte>)
    ensures Decode(b).Some? <==> exists strings :: Encodable(strings) && Encode(strings) == b
    ensures forall strings :: Encodable(strings) && Encode(strings) == b ==> Decode(b) == Some(strings)
  {
    forall strings | Encodable(strings) && Encode(strings) == b ensures Decode(b) == Some(strings) {
      DecodeEncode(strings);
    }
    if Decode(b).Some? {
      EncodeDecode(b);
    }
  }

  /** The batch size is the number of strings exactly as long as that fits 32 bits. */
  lemma BatchSizeExact(strings: seq<seq<byte>>)
    ensures ToInt32(|strings|) == |strings| <==> |strings| < 0x8000_0000
  {
  }

  lemma {:induction false} MaxLengthIsGreatest(strings: seq<seq<byte>>)
    ensures forall i :: 0 <= i < |strings| ==> |strings[i]| <= MaxLength(strings)
    ensures strings != [] ==> exists i :: 0 <= i < |strings| && |strings[i]| == MaxLength(strings)
  {
    var n := |strings| - 1;
    if n >= 0 {
      MaxLengthIsGreatest(strings[..n]);
      assert forall i :: 0 <= i < n ==> strings[..n][i] == strings[i];
    }
  }
}
