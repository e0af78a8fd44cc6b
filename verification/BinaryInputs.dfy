/** Binary tensors that follow the JSON part of a REST request: where they start, how
    long each one is, and how they are cut out of the body. */
module BinaryInputs {
  import opened Common
  import opened RawContents

  const SIZE_LIMIT := 0x1_0000_0000_0000_0000

  datatype Code =
    | OK
    | HEADER_LENGTH_EXCEEDED
    | PARSING_FAILED
    | CONTENTS_FIELD_NOT_EMPTY
    | DATA_SIZE_PARAMETER_INVALID
    | INVALID_CONTENT_SIZE
    | BUFFER_EXCEEDED

  datatype Parameter = Int64Parameter(value: int) | OtherType

  /** How many values of each kind the JSON part gave. */
  datatype Contents = Contents(fp32: nat, fp64: nat, int64s: nat, ints: nat, uint64s: nat, uints: nat, bytes: nat, bools: nat)

  /** The names of the tensor datatypes; Other is any other string. */
  datatype DataType =
    | BOOL
    | UINT8 | UINT16 | UINT32 | UINT64
    | INT8 | INT16 | INT32 | INT64
    | FP16 | FP32 | FP64
    | BYTES
    | Other(name: string)

  datatype Input = Input(datatype_: DataType, shape: seq<int>, contents: Contents, binaryDataSize: Option<Parameter>)

  predicate IsInputEmpty(input: Input) {
    match input.datatype_
    case FP32 => input.contents.fp32 == 0
    case INT64 => input.contents.int64s == 0
    case INT32 => input.contents.ints == 0
    case INT16 => input.contents.ints == 0
    case INT8 => input.contents.ints == 0
    case UINT64 => input.contents.uint64s == 0
    case UINT32 => input.contents.uints == 0
    case UINT16 => input.contents.uints == 0
    case UINT8 => input.contents.uints == 0
    case FP64 => input.contents.fp64 == 0
    case BYTES => input.contents.bytes == 0
    case BOOL => input.contents.bools == 0
    case _ => true
  }

  /** 0 for an unknown datatype. */
  function DataTypeSize(datatype_: DataType): nat {
    match datatype_
    case BOOL => 1
    case UINT8 => 1
    case UINT16 => 2
    case UINT32 => 4
    case UINT64 => 8
    case INT8 => 1
    case INT16 => 2
    case INT32 => 4
    case INT64 => 8
    case FP16 => 2
    case FP32 => 4
    case FP64 => 8
    case BYTES => 1
    case _ => 0
  }

  // ---- the size of a tensor ----

  /** Conversion of a 64-bit integer to a size. */
  function AsSize(d: int): (r: nat)
    ensures 0 <= d < SIZE_LIMIT ==> r == d
    ensures -SIZE_LIMIT <= d < 0 ==> r == d + SIZE_LIMIT
  {
    d % SIZE_LIMIT
  }

  function Product(dims: seq<int>): nat {
    if dims == [] then 1 else Product(dims[..|dims| - 1]) * AsSize(dims[|dims| - 1])
  }

  /** The product of all dimensions, wherever they are split. */
  lemma {:induction false} ProductSplits(a: seq<int>, b: seq<int>)
    ensures Product(a + b) == Product(a) * Product(b)
    ensures |a| == 1 ==> Product(a) == AsSize(a[0])
  {
    if b == [] {
      assert a + b == a;
    } else {
      var n := |b| - 1;
      assert (a + b)[..|a + b| - 1] == a + b[..n];
      ProductSplits(a, b[..n]);
      assert Product(a) * Product(b[..n]) * AsSize(b[n]) == Product(a) * (Product(b[..n]) * AsSize(b[n]));
    }
    if |a| == 1 {
      assert Product(a[..0]) == 1;
    }
  }

  /** The dimensions in front of the first zero. */
  function BeforeZero(dims: seq<int>): (r: seq<int>)
    ensures r <= dims && 0 !in r
    ensures |r| < |dims| ==> dims[|r|] == 0
  {
    if dims == [] || dims[0] == 0 then [] else [dims[0]] + BeforeZero(dims[1..])
  }

  ghost predicate Int64s(dims: seq<int>) {
    forall i :: 0 <= i < |dims| ==> -0x8000_0000_0000_0000 <= dims[i] < 0x8000_0000_0000_0000
  }

  lemma OverflowCheck(count: nat, d: nat)
    requires 0 < d
    ensures count > (SIZE_LIMIT - 1) / d <==> count * d >= SIZE_LIMIT
  {
    var q, r := (SIZE_LIMIT - 1) / d, (SIZE_LIMIT - 1) % d;
    assert SIZE_LIMIT - 1 == q * d + r;
    if count > q {
      TimesMonotone(q + 1, count, d);
      assert (q + 1) * d == q * d + d;
    } else {
      TimesMonotone(count, q, d);
    }
  }

  lemma TimesMonotone(a: nat, b: nat, d: nat)
    requires a <= b
    ensures a * d <= b * d
  {
  }

  lemma TimesAtLeast(a: nat, b: nat)
    requires b >= 1
    ensures a * b >= a
  {
  }

  lemma {:induction false} ProductGrows(dims: seq<int>, k: nat)
    requires Int64s(dims) && 0 !in dims && k <= |dims|
    ensures Product(dims[..k]) <= Product(dims)
    decreases |dims|
  {
    var n := |dims| - 1;
    if k == |dims| {
      assert dims[..k] == dims;
    } else {
      ProductGrows(dims[..n], k);
      assert dims[..n][..k] == dims[..k];
      assert dims[n] in dims;
      TimesAtLeast(Product(dims[..n]), AsSize(dims[n]));
    }
  }

  lemma BeforeZeroIs(dims: seq<int>, k: nat)
    requires k <= |dims| && 0 !in dims[..k]
    ensures k <= |BeforeZero(dims)|
    ensures k == |dims| ==> BeforeZero(dims) == dims
    ensures k < |dims| && dims[k] == 0 ==> BeforeZero(dims) == dims[..k]
  {
    var r := BeforeZero(dims);
    assert forall i :: 0 <= i < k ==> dims[i] == dims[..k][i] && dims[i] != 0;
    if |r| > k {
      assert r[k] == dims[k];
    }
  }

  lemma ProductStep(dims: seq<int>, i: nat)
    requires i < |dims|
    ensures Product(dims[..i + 1]) == Product(dims[..i]) * AsSize(dims[i])
  {
    assert dims[..i + 1][..i] == dims[..i];
  }

  lemma PrefixBound(dims: seq<int>, k: nat)
    requires Int64s(dims) && k <= |dims| && 0 !in dims[..k]
    ensures Product(dims[..k]) <= Product(BeforeZero(dims))
  {
    BeforeZeroIs(dims, k);
    assert BeforeZero(dims)[..k] == dims[..k];
    ProductGrows(BeforeZero(dims), k);
  }

  /** The product of the dimensions, with a zero ending the computation. An overflow
      after a zero is not noticed; a negative dimension counts as a huge one. */
  method ElementCount(shape: seq<int>) returns (ok: bool, elementCount: nat)
    requires Int64s(shape)
    ensures ok <==> Product(BeforeZero(shape)) < SIZE_LIMIT
    ensures ok ==> elementCount == if 0 in shape then 0 else Product(shape)
    ensures ok ==> elementCount < SIZE_LIMIT
  {
    elementCount := 1;
    var i := 0;
    while i < |shape|
      invariant 0 <= i <= |shape| && 0 !in shape[..i]
      invariant elementCount == Product(shape[..i]) < SIZE_LIMIT
    {
      var dim := shape[i];
      if dim == 0 {
        BeforeZeroIs(shape, i);
        assert 0 in shape;
        return true, 0;
      }
      assert shape[..i + 1] == shape[..i] + [dim];
      ProductStep(shape, i);
      PrefixBound(shape, i + 1);
      OverflowCheck(elementCount, AsSize(dim));
      if elementCount > (SIZE_LIMIT - 1) / AsSize(dim) {
        return false, elementCount;
      }
      elementCount := elementCount * AsSize(dim);
      i := i + 1;
    }
    assert shape[..i] == shape;
    BeforeZeroIs(shape, i);
    return true, elementCount;
  }

  /** The size of a tensor in bytes, if neither product overflows. */
  function TensorSize(input: Input): Option<nat> {
    var count := if 0 in input.shape then 0 else Product(input.shape);
    var bytes := count * DataTypeSize(input.datatype_);
    if Product(BeforeZero(input.shape)) < SIZE_LIMIT && bytes < SIZE_LIMIT then Some(bytes) else None
  }

  /** The size for elements of the given width: their number times the width, unless one
      of the two products does not fit a size. */
  ghost predicate SizeWithWidth(shape: seq<int>, width: nat, size: Option<nat>) {
    var bytes := if 0 in shape then 0 else Product(shape) * width;
    && (size.Some? <==> Product(BeforeZero(shape)) < SIZE_LIMIT && bytes < SIZE_LIMIT)
    && (size.Some? ==> size.value == bytes)
  }

  /** The widths of the tensor datatypes; an unknown one takes no bytes. */
  ghost predicate SizeByDatatype(input: Input, size: Option<nat>) {
    && (input.datatype_ in {BOOL, INT8, UINT8, BYTES} ==> SizeWithWidth(input.shape, 1, size))
    && (input.datatype_ in {INT16, UINT16, FP16} ==> SizeWithWidth(input.shape, 2, size))
    && (input.datatype_ in {INT32, UINT32, FP32} ==> SizeWithWidth(input.shape, 4, size))
    && (input.datatype_ in {INT64, UINT64, FP64} ==> SizeWithWidth(input.shape, 8, size))
    && (input.datatype_.Other? ==> SizeWithWidth(input.shape, 0, size))
  }

  lemma TensorSizeWidth(input: Input, width: nat)
    requires width == DataTypeSize(input.datatype_)
    ensures SizeWithWidth(input.shape, width, TensorSize(input))
  {
  }

  lemma TensorSizeIs(input: Input)
    ensures SizeByDatatype(input, TensorSize(input))
  {
    var width := DataTypeSize(input.datatype_);
    TensorSizeWidth(input, width);
    assert input.datatype_ in {BOOL, INT8, UINT8, BYTES} ==> width == 1;
    assert input.datatype_ in {INT16, UINT16, FP16} ==> width == 2;
    assert input.datatype_ in {INT32, UINT32, FP32} ==> width == 4;
    assert input.datatype_ in {INT64, UINT64, FP64} ==> width == 8;
  }

  method CalculateBinaryDataSize(input: Input) returns (size: Option<nat>)
    requires Int64s(input.shape)
    ensures size == TensorSize(input) && SizeByDatatype(input, size)
  {
    TensorSizeIs(input);
    var elementSize := DataTypeSize(input.datatype_);
    var ok, elementCount := ElementCount(input.shape);
    if !ok {
      return None;
    }
    if 0 !in input.shape {
      BeforeZeroIs(input.shape, |input.shape|);
      assert input.shape[..|input.shape|] == input.shape;
    }
    if elementSize == 0 || elementCount == 0 {
      return Some(0);
    }
    OverflowCheck(elementCount, elementSize);
    if elementCount > (SIZE_LIMIT - 1) / elementSize {
      return None;
    }
    return Some(elementCount * elementSize);
  }

  // ---- one input ----

  /** What one input asks for: nothing, because the JSON part has filled it, a number of
      bytes, or an error. */
  datatype Demand = Nothing | Bytes(size: nat) | Refuse(code: Code)

  function DemandOf(input: Input, alone: bool, bufferSize: nat): Demand {
    match input.binaryDataSize
    case Some(parameter) =>
      if !IsInputEmpty(input) then Refuse(CONTENTS_FIELD_NOT_EMPTY)
      else if parameter.Int64Parameter? && parameter.value >= 0 then Bytes(parameter.value)
      else Refuse(DATA_SIZE_PARAMETER_INVALID)
    case None =>
      if !IsInputEmpty(input) then Nothing
      else if alone && input.datatype_ == BYTES then Bytes(bufferSize)
      else
        var size := TensorSize(input);
        if size.Some? then Bytes(size.value) else Refuse(INVALID_CONTENT_SIZE)
  }

  /** The values of an input of each datatype are in the field of that kind; unsigned and
      signed integers of up to 32 bits share a field each. FP16 has none. */
  lemma EmptyMeans(input: Input)
    ensures var c := input.contents;
            && (input.datatype_ in {INT8, INT16, INT32} ==> (IsInputEmpty(input) <==> c.ints == 0))
            && (input.datatype_ in {UINT8, UINT16, UINT32} ==> (IsInputEmpty(input) <==> c.uints == 0))
            && (input.datatype_ == INT64 ==> (IsInputEmpty(input) <==> c.int64s == 0))
            && (input.datatype_ == UINT64 ==> (IsInputEmpty(input) <==> c.uint64s == 0))
            && (input.datatype_ == FP32 ==> (IsInputEmpty(input) <==> c.fp32 == 0))
            && (input.datatype_ == FP64 ==> (IsInputEmpty(input) <==> c.fp64 == 0))
            && (input.datatype_ == BYTES ==> (IsInputEmpty(input) <==> c.bytes == 0))
            && (input.datatype_ == BOOL ==> (IsInputEmpty(input) <==> c.bools == 0))
            && (input.datatype_ == FP16 || input.datatype_.Other? ==> IsInputEmpty(input))
  {
  }

  /** The number of bytes an input takes from the binary part: the size parameter, or
      everything for a BYTES input that is alone, or what datatype and shape say. */
  ghost predicate Takes(input: Input, alone: bool, bufferSize: nat, size: nat) {
    match input.binaryDataSize
    case Some(parameter) => parameter == Int64Parameter(size)
    case None => if alone && input.datatype_ == BYTES then size == bufferSize else SizeByDatatype(input, Some(size))
  }

  /** Skipped are the inputs with JSON contents and without a size parameter; an input with
      both is refused, and so is one whose parameter is not a size or whose size is not
      representable. */
  lemma DemandMeaning(input: Input, alone: bool, bufferSize: nat)
    ensures var demand := DemandOf(input, alone, bufferSize);
            var parameter := input.binaryDataSize;
            && (demand == Nothing <==> !IsInputEmpty(input) && parameter.None?)
            && (demand == Refuse(CONTENTS_FIELD_NOT_EMPTY) <==> !IsInputEmpty(input) && parameter.Some?)
            && (demand == Refuse(DATA_SIZE_PARAMETER_INVALID)
                <==> IsInputEmpty(input) && parameter.Some? && (parameter.value.OtherType? || parameter.value.value < 0))
            && (demand == Refuse(INVALID_CONTENT_SIZE)
                <==> IsInputEmpty(input) && parameter.None? && !(alone && input.datatype_ == BYTES) && SizeByDatatype(input, None))
            && (demand.Bytes? ==> Takes(input, alone, bufferSize, demand.size))
  {
    TensorSizeIs(input);
  }

  method FindDemand(input: Input, alone: bool, bufferSize: nat) returns (demand: Demand)
    requires Int64s(input.shape)
    ensures demand == DemandOf(input, alone, bufferSize)
  {
    if input.binaryDataSize.Some? {
      if !IsInputEmpty(input) {
        return Refuse(CONTENTS_FIELD_NOT_EMPTY);
      }
      if input.binaryDataSize.value.Int64Parameter? {
        var paramValue := input.binaryDataSize.value.value;
        if paramValue < 0 {
          return Refuse(DATA_SIZE_PARAMETER_INVALID);
        }
        return Bytes(paramValue);
      } else {
        return Refuse(DATA_SIZE_PARAMETER_INVALID);
      }
    } else {
      if !IsInputEmpty(input) {
        return Nothing;
      }
      if alone && input.datatype_ == BYTES {
        return Bytes(bufferSize);
      }
      var size := CalculateBinaryDataSize(input);
      if size.None? {
        return Refuse(INVALID_CONTENT_SIZE);
      }
      return Bytes(size.value);
    }
  }

  // ---- all inputs ----

  method DemandAt(inputs: seq<Input>, i: nat, bufferSize: nat) returns (demand: Demand)
    requires i < |inputs| && Int64s(inputs[i].shape)
    ensures demand == Demands(inputs, bufferSize)[i]
  {
    demand := FindDemand(inputs[i], |inputs| == 1, bufferSize);
  }

  function Demands(inputs: seq<Input>, bufferSize: nat): (r: seq<Demand>)
    ensures |r| == |inputs|
  {
    seq(|inputs|, i requires 0 <= i < |inputs| => DemandOf(inputs[i], |inputs| == 1, bufferSize))
  }

  lemma DemandCode(inputs: seq<Input>, bufferSize: nat)
    ensures Proper(Demands(inputs, bufferSize))
  {
  }

  /** The codes with which an input itself is refused. */
  ghost predicate Proper(demands: seq<Demand>) {
    forall i :: 0 <= i < |demands| && demands[i].Refuse? ==>
      demands[i].code in {CONTENTS_FIELD_NOT_EMPTY, DATA_SIZE_PARAMETER_INVALID, INVALID_CONTENT_SIZE}
  }

  /** The numbers of bytes asked for, in order. */
  function Sizes(demands: seq<Demand>): seq<nat> {
    if demands == [] then []
    else
      var front := Sizes(demands[..|demands| - 1]);
      var demand := demands[|demands| - 1];
      if demand.Bytes? then front + [demand.size] else front
  }

  function Sum(sizes: seq<nat>): nat {
    if sizes == [] then 0 else Sum(sizes[..|sizes| - 1]) + sizes[|sizes| - 1]
  }

  function Concat(raw: seq<seq<byte>>): seq<byte> {
    if raw == [] then [] else Concat(raw[..|raw| - 1]) + raw[|raw| - 1]
  }

  /** The first input that is refused or does not fit decides the result. */
  function Outcome(demands: seq<Demand>, bufferSize: nat): Code {
    if demands == [] then Code.OK
    else
      var front := demands[..|demands| - 1];
      var before := Outcome(front, bufferSize);
      var demand := demands[|demands| - 1];
      if before != Code.OK then before
      else if demand.Refuse? then demand.code
      else if demand.Bytes? && Sum(Sizes(front)) + demand.size > bufferSize then BUFFER_EXCEEDED
      else Code.OK
  }

  ghost predicate NoneRefused(demands: seq<Demand>) {
    forall i :: 0 <= i < |demands| ==> !demands[i].Refuse?
  }

  /** The raw buffers have the sizes asked for and lie one after the other from the
      start of the binary part. */
  ghost predicate Slices(raw: seq<seq<byte>>, sizes: seq<nat>, buffer: seq<byte>) {
    && |raw| == |sizes| && (forall j :: 0 <= j < |raw| ==> |raw[j]| == sizes[j])
    && Sum(sizes) <= |buffer| && Concat(raw) == buffer[..Sum(sizes)]
  }

  /** Unsigned subtraction. */
  function SizeMinus(a: nat, b: nat): nat {
    (a - b) % SIZE_LIMIT
  }

  lemma SumAppend(sizes: seq<nat>, size: nat)
    ensures Sum(sizes + [size]) == Sum(sizes) + size
  {
    assert (sizes + [size])[..|sizes|] == sizes;
  }

  lemma OneMoreSlice(raw: seq<seq<byte>>, sizes: seq<nat>, buffer: seq<byte>, size: nat, slice: seq<byte>)
    requires Slices(raw, sizes, buffer) && Sum(sizes) + size <= |buffer|
    requires slice == buffer[Sum(sizes)..Sum(sizes) + size]
    ensures Sum(sizes + [size]) == Sum(sizes) + size
    ensures Slices(raw + [slice], sizes + [size], buffer)
  {
    SumAppend(sizes, size);
    assert (raw + [slice])[..|raw|] == raw;
    assert buffer[..Sum(sizes)] + slice == buffer[..Sum(sizes) + size];
  }

  lemma {:induction false} FirstOffender(demands: seq<Demand>, bufferSize: nat, i: nat)
    requires i < |demands| && Outcome(demands[..i + 1], bufferSize) != Code.OK
    ensures Outcome(demands, bufferSize) == Outcome(demands[..i + 1], bufferSize)
    decreases |demands|
  {
    if i + 1 == |demands| {
      assert demands[..i + 1] == demands;
    } else {
      assert demands[..|demands| - 1][..i + 1] == demands[..i + 1];
      FirstOffender(demands[..|demands| - 1], bufferSize, i);
    }
  }

  /** The call succeeds exactly if no input is refused and the binary part is long
      enough for all of them. */
  lemma {:induction false} OutcomeMeaning(demands: seq<Demand>, bufferSize: nat)
    requires Proper(demands)
    ensures Outcome(demands, bufferSize) == Code.OK <==> NoneRefused(demands) && Sum(Sizes(demands)) <= bufferSize
    ensures Outcome(demands, bufferSize) !in {HEADER_LENGTH_EXCEEDED, PARSING_FAILED}
  {
    if demands != [] {
      var n := |demands| - 1;
      var front := demands[..n];
      OutcomeMeaning(front, bufferSize);
      assert forall i :: 0 <= i < n ==> front[i] == demands[i];
      if demands[n].Bytes? {
        SumAppend(Sizes(front), demands[n].size);
      }
    }
  }

  lemma NextInput(demands: seq<Demand>, bufferSize: nat, i: nat)
    requires i < |demands| && Outcome(demands[..i], bufferSize) == Code.OK
    ensures var demand := demands[i];
            var sizes := Sizes(demands[..i]);
            && Sizes(demands[..i + 1]) == (if demand.Bytes? then sizes + [demand.size] else sizes)
            && Outcome(demands[..i + 1], bufferSize)
               == if demand.Refuse? then demand.code
                  else if demand.Bytes? && Sum(sizes) + demand.size > bufferSize then BUFFER_EXCEEDED
                  else Code.OK
  {
    assert demands[..i + 1][..i] == demands[..i];
  }

  /** Cuts one slice out of the body. The unsigned subtraction never wraps around. */
  method HandleBinaryInput(size: nat, offset: nat, bufferSize: nat, body: seq<byte>, endOfJson: nat)
    returns (ok: bool, slice: seq<byte>, newOffset: nat)
    requires endOfJson + bufferSize == |body| < SIZE_LIMIT && offset <= bufferSize
    ensures ok <==> offset + size <= bufferSize
    ensures ok ==> slice == body[endOfJson..][offset..offset + size] && newOffset == offset + size
    ensures !ok ==> slice == [] && newOffset == offset
  {
    assert SizeMinus(bufferSize, offset) == bufferSize - offset;
    if size > SizeMinus(bufferSize, offset) {
      return false, [], offset;
    }
    slice := body[endOfJson + offset..endOfJson + offset + size];
    assert slice == body[endOfJson..][offset..offset + size];
    return true, slice, offset + size;
  }

  /** The first i inputs have been served. */
  ghost predicate ServedTo(demands: seq<Demand>, i: nat, offset: nat, raw: seq<seq<byte>>, buffer: seq<byte>)
    requires i <= |demands|
  {
    && Outcome(demands[..i], |buffer|) == Code.OK
    && offset == Sum(Sizes(demands[..i])) <= |buffer|
    && Slices(raw, Sizes(demands[..i]), buffer)
  }

  lemma Unserved(demands: seq<Demand>, i: nat, offset: nat, raw: seq<seq<byte>>, buffer: seq<byte>)
    requires i < |demands| && ServedTo(demands, i, offset, raw, buffer) && Proper(demands)
    ensures demands[i].Refuse? ==> Outcome(demands, |buffer|) == demands[i].code != Code.OK
    ensures demands[i].Bytes? && offset + demands[i].size > |buffer| ==> Outcome(demands, |buffer|) == BUFFER_EXCEEDED
  {
    NextInput(demands, |buffer|, i);
    if Outcome(demands[..i + 1], |buffer|) != Code.OK {
      FirstOffender(demands, |buffer|, i);
    }
  }

  lemma Served(demands: seq<Demand>, i: nat, offset: nat, raw: seq<seq<byte>>, buffer: seq<byte>)
    requires i < |demands| && ServedTo(demands, i, offset, raw, buffer)
    ensures demands[i].Nothing? ==> ServedTo(demands, i + 1, offset, raw, buffer)
    ensures demands[i].Bytes? && offset + demands[i].size <= |buffer| ==>
              ServedTo(demands, i + 1, offset + demands[i].size, raw + [buffer[offset..offset + demands[i].size]], buffer)
  {
    NextInput(demands, |buffer|, i);
    if demands[i].Bytes? && offset + demands[i].size <= |buffer| {
      OneMoreSlice(raw, Sizes(demands[..i]), buffer, demands[i].size, buffer[offset..offset + demands[i].size]);
    }
  }

  lemma SliceServed(demands: seq<Demand>, i: nat, offset: nat, raw: seq<seq<byte>>, buffer: seq<byte>, ok: bool, slice: seq<byte>)
    requires i < |demands| && demands[i].Bytes? && Proper(demands) && ServedTo(demands, i, offset, raw, buffer)
    requires ok <==> offset + demands[i].size <= |buffer|
    requires ok ==> slice == buffer[offset..offset + demands[i].size]
    ensures ok ==> ServedTo(demands, i + 1, offset + demands[i].size, raw + [slice], buffer)
    ensures !ok ==> Outcome(demands, |buffer|) == BUFFER_EXCEEDED
  {
    if ok {
      Served(demands, i, offset, raw, buffer);
    } else {
      Unserved(demands, i, offset, raw, buffer);
    }
  }

  /** One round of the loop: the i-th input is refused or does not fit, and decides the
      result, or it is served. */
  method ServeInput(demand: Demand, offset: nat, raw: seq<seq<byte>>, bufferSize: nat, body: seq<byte>, endOfJson: nat,
                    ghost demands: seq<Demand>, ghost i: nat, ghost buffer: seq<byte>)
    returns (code: Code, newOffset: nat, newRaw: seq<seq<byte>>)
    requires endOfJson + bufferSize == |body| < SIZE_LIMIT && buffer == body[endOfJson..]
    requires i < |demands| && demand == demands[i] && Proper(demands) && ServedTo(demands, i, offset, raw, buffer)
    ensures code == Code.OK ==> ServedTo(demands, i + 1, newOffset, newRaw, buffer)
    ensures code != Code.OK ==> code == Outcome(demands, bufferSize)
  {
    match demand {
      case Refuse(refusal) =>
        Unserved(demands, i, offset, raw, buffer);
        return refusal, offset, raw;
      case Nothing =>
        Served(demands, i, offset, raw, buffer);
        return Code.OK, offset, raw;
      case Bytes(size) =>
        var ok, slice, next := HandleBinaryInput(size, offset, bufferSize, body, endOfJson);
        SliceServed(demands, i, offset, raw, buffer, ok, slice);
        return if ok then Code.OK else BUFFER_EXCEEDED, next, raw + [slice];
    }
  }

  function FromBody(inputs: seq<Input>): (k: nat)
    ensures k <= |inputs|
  {
    if inputs == [] then 0
    else FromBody(inputs[..|inputs| - 1]) + (if IsInputEmpty(inputs[|inputs| - 1]) then 1 else 0)
  }

  /** The inputs without JSON contents have a raw buffer each, in order and of the length
      they take. */
  ghost predicate EachTakes(inputs: seq<Input>, raw: seq<seq<byte>>, bufferSize: nat) {
    && |raw| == FromBody(inputs)
    && forall i :: 0 <= i < |inputs| && IsInputEmpty(inputs[i]) ==>
         && FromBody(inputs[..i]) < |raw|
         && Takes(inputs[i], |inputs| == 1, bufferSize, |raw[FromBody(inputs[..i])]|)
  }

  lemma {:induction false} SizesPrefix(demands: seq<Demand>, i: nat)
    requires i <= |demands|
    ensures Sizes(demands[..i]) <= Sizes(demands)
    decreases |demands|
  {
    if i == |demands| {
      assert demands[..i] == demands;
    } else {
      assert demands[..|demands| - 1][..i] == demands[..i];
      SizesPrefix(demands[..|demands| - 1], i);
    }
  }

  /** Without a refusal exactly the inputs without JSON contents ask for bytes. */
  lemma {:induction false} SizesCount(inputs: seq<Input>, bufferSize: nat, i: nat)
    requires i <= |inputs| && NoneRefused(Demands(inputs, bufferSize))
    ensures |Sizes(Demands(inputs, bufferSize)[..i])| == FromBody(inputs[..i])
    decreases i
  {
    if i > 0 {
      var demands := Demands(inputs, bufferSize);
      SizesCount(inputs, bufferSize, i - 1);
      assert demands[..i][..i - 1] == demands[..i - 1] && inputs[..i][..i - 1] == inputs[..i - 1];
      DemandMeaning(inputs[i - 1], |inputs| == 1, bufferSize);
    }
  }

  lemma TakesAt(inputs: seq<Input>, bufferSize: nat, i: nat)
    requires i < |inputs| && NoneRefused(Demands(inputs, bufferSize)) && IsInputEmpty(inputs[i])
    ensures var sizes := Sizes(Demands(inputs, bufferSize));
            var k := FromBody(inputs[..i]);
            k < |sizes| && Takes(inputs[i], |inputs| == 1, bufferSize, sizes[k])
  {
    var demands := Demands(inputs, bufferSize);
    DemandMeaning(inputs[i], |inputs| == 1, bufferSize);
    assert demands[i].Bytes?;
    SizesCount(inputs, bufferSize, i);
    SizesPrefix(demands, i + 1);
    assert demands[..i + 1][..i] == demands[..i];
  }

  lemma SlicesTake(inputs: seq<Input>, raw: seq<seq<byte>>, buffer: seq<byte>)
    requires Outcome(Demands(inputs, |buffer|), |buffer|) == Code.OK
    requires Slices(raw, Sizes(Demands(inputs, |buffer|)), buffer)
    ensures EachTakes(inputs, raw, |buffer|)
  {
    var demands := Demands(inputs, |buffer|);
    DemandCode(inputs, |buffer|);
    OutcomeMeaning(demands, |buffer|);
    SizesCount(inputs, |buffer|, |inputs|);
    assert demands[..|inputs|] == demands && inputs[..|inputs|] == inputs;
    forall i | 0 <= i < |inputs| && IsInputEmpty(inputs[i])
      ensures FromBody(inputs[..i]) < |raw| && Takes(inputs[i], |inputs| == 1, |buffer|, |raw[FromBody(inputs[..i])]|)
    {
      TakesAt(inputs, |buffer|, i);
    }
  }

  /** On success there is one buffer for each input not filled from the JSON part, of the
      length its datatype and shape or its parameter say, and together they are the beginning of the binary part. */
  method HandleBinaryInputs(inputs: seq<Input>, body: seq<byte>, endOfJson: nat)
    returns (code: Code, raw: seq<seq<byte>>)
    requires endOfJson <= |body| < SIZE_LIMIT
    requires forall i :: 0 <= i < |inputs| ==> Int64s(inputs[i].shape)
    ensures var buffer := body[endOfJson..];
            && code == Outcome(Demands(inputs, |buffer|), |buffer|)
            && (code == Code.OK ==> Slices(raw, Sizes(Demands(inputs, |buffer|)), buffer) && EachTakes(inputs, raw, |buffer|))
  {
    ghost var buffer := body[endOfJson..];
    var bufferSize := |body| - endOfJson;
    ghost var demands := Demands(inputs, bufferSize);
    DemandCode(inputs, bufferSize);
    var offset: nat := 0;
    raw := [];
    var i := 0;
    while i < |inputs|
      invariant 0 <= i <= |inputs|
      invariant ServedTo(demands, i, offset, raw, buffer)
    {
      var demand := DemandAt(inputs, i, bufferSize);
      code, offset, raw := ServeInput(demand, offset, raw, bufferSize, body, endOfJson, demands, i, buffer);
      if code != Code.OK {
        return code, raw;
      }
      i := i + 1;
    }
    assert demands[..i] == demands;
    SlicesTake(inputs, raw, buffer);
    return Code.OK, raw;
  }

  // ---- the whole request ----

  /** The length of the JSON part: the header if there is one, otherwise the length of
      the body, converted to a 32-bit integer and back to a size. */
  function EndOfJson(header: Option<int>, length: nat): nat {
    AsSize(if header.Some? then header.value else ToInt32(length))
  }

  /** "parse" stands for the JSON parser; the shapes it delivers are 64-bit integers. */
  method PrepareGrpcRequest(body: seq<byte>, header: Option<int>, parse: seq<byte> -> Option<seq<Input>>)
    returns (code: Code, raw: seq<seq<byte>>)
    requires |body| < SIZE_LIMIT
    requires forall json :: parse(json).Some? ==>
               forall i :: 0 <= i < |parse(json).value| ==> Int64s(parse(json).value[i].shape)
    ensures var end := EndOfJson(header, |body|);
            && (code == HEADER_LENGTH_EXCEEDED <==> end > |body|)
            && (code == PARSING_FAILED <==> end <= |body| && parse(body[..end]).None?)
            && (end <= |body| && parse(body[..end]).Some? ==>
                  var inputs := parse(body[..end]).value;
                  && code == Outcome(Demands(inputs, |body| - end), |body| - end)
                  && (code == Code.OK ==> Slices(raw, Sizes(Demands(inputs, |body| - end)), body[end..])
                                          && EachTakes(inputs, raw, |body| - end)))
  {
    raw := [];
    var endOfJson := EndOfJson(header, |body|);
    if endOfJson > |body| {
      return HEADER_LENGTH_EXCEEDED, raw;
    }
    var parsed := parse(body[..endOfJson]);
    if parsed.None? {
      return PARSING_FAILED, raw;
    }
    code, raw := HandleBinaryInputs(parsed.value, body, endOfJson);
    DemandCode(parsed.value, |body| - endOfJson);
    OutcomeMeaning(Demands(parsed.value, |body| - endOfJson), |body| - endOfJson);
  }

  /** Without the header the whole body is taken for JSON exactly if its length fits a
      32-bit integer; a negative header is always refused. */
  lemma EndOfJsonExact(length: nat, header: int)
    requires length < 0x8000_0000_0000_0000 && -0x8000_0000 <= header < 0x8000_0000
    ensures EndOfJson(None, length) == length <==> length < 0x8000_0000
    ensures header < 0 ==> EndOfJson(Some(header), length) > length
    ensures header >= 0 ==> EndOfJson(Some(header), length) == header
  {
  }
}
