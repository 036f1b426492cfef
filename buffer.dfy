/**
 * Raw byte buffers (Core/Buffer.h): a descriptor of element count, stride
 * and byte size, and a buffer that owns a copy of the bytes and hands out
 * per-element slices.
 */
module Buffers {
  import opened Wrappers
  import opened Vectors

  /** BufferDesc; `data` is the caller's initial bytes, `None` for `nullptr`. */
  datatype BufferDesc = BufferDesc(numOfElement: nat, stride: nat, bufferSize: nat, data: Option<seq<byte>>)

  /** `BufferDesc()`. */
  const DefaultBufferDesc: BufferDesc := BufferDesc(0, 0, 0, None)

  /** The byte size a descriptor records agrees with its element count and stride. */
  predicate Consistent(d: BufferDesc)
  {
    d.bufferSize == d.numOfElement * d.stride
  }

  /**
   * The copy constructor: element count, stride and data address are copied,
   * the byte size is recomputed from the first two.
   */
  function CopyBufferDesc(d: BufferDesc): (r: BufferDesc)
    ensures Consistent(r)
    ensures r.numOfElement == d.numOfElement && r.stride == d.stride && r.data == d.data
  {
    BufferDesc(d.numOfElement, d.stride, d.numOfElement * d.stride, d.data)
  }

  /** Copying keeps a descriptor (as `operator=` does) exactly when it was consistent. */
  lemma CopyPreservesExactlyConsistent(d: BufferDesc)
    ensures CopyBufferDesc(d) == d <==> Consistent(d)
  {
  }

  /** The bytes of element `i`: `stride` bytes from offset `i * stride`. */
  function ElementSlice(raw: seq<byte>, stride: nat, i: nat): (e: seq<byte>)
    requires (i + 1) * stride <= |raw|
    ensures |e| == stride
  {
    raw[i * stride .. i * stride + stride]
  }

  /** The first `n` elements of `raw`, one slice each. */
  function Elements(raw: seq<byte>, stride: nat, n: nat): (es: seq<seq<byte>>)
    requires n * stride <= |raw|
    ensures |es| == n
    ensures forall i | 0 <= i < n :: es[i] == ElementSlice(raw, stride, i)
  {
    if n == 0 then []
    else
      assert (n - 1) * stride <= n * stride;
      Elements(raw, stride, n - 1) + [ElementSlice(raw, stride, n - 1)]
  }

  function Flatten(ss: seq<seq<byte>>): seq<byte>
  {
    if ss == [] then [] else Flatten(ss[..|ss| - 1]) + ss[|ss| - 1]
  }

  /** The element slices of a consistent buffer tile its bytes exactly, in order. */
  lemma {:induction false} ElementsTileBuffer(raw: seq<byte>, stride: nat, n: nat)
    requires |raw| == n * stride
    ensures Flatten(Elements(raw, stride, n)) == raw
  {
    ElementsPrefix(raw, stride, n);
  }

  lemma {:induction false} ElementsPrefix(raw: seq<byte>, stride: nat, n: nat)
    requires n * stride <= |raw|
    ensures Flatten(Elements(raw, stride, n)) == raw[..n * stride]
  {
    if n > 0 {
      MulPred(n, stride);
      var es := Elements(raw, stride, n);
      assert es[..n - 1] == Elements(raw, stride, n - 1);
      ElementsPrefix(raw, stride, n - 1);
      SplitPrefix(raw, (n - 1) * stride, n * stride);
    }
  }

  lemma MulPred(n: nat, s: nat)
    requires n > 0
    ensures (n - 1) * s + s == n * s
  {
  }

  lemma SplitPrefix(raw: seq<byte>, start: nat, end: nat)
    requires start <= end <= |raw|
    ensures raw[..end] == raw[..start] + raw[start..end]
  {
  }

  class Buffer {
    var desc: BufferDesc
    /** `m_data`: the buffer's own copy of the bytes. */
    var data: array<byte>

    /** The storage holds exactly the bytes the descriptor records. */
    ghost predicate Valid()
      reads this
    {
      data.Length == desc.bufferSize
    }

    /**
     * `Buffer(pDesc)` as written: storage and initial copy use the caller's
     * `m_buffer_size`, while the stored descriptor recomputes it.
     */
    constructor (d: BufferDesc)
      requires d.data.Some? && d.bufferSize <= |d.data.value|
      ensures desc == CopyBufferDesc(d) && fresh(data)
      ensures data[..] == d.data.value[..d.bufferSize]
      ensures Valid() <==> Consistent(d)
    {
      desc := CopyBufferDesc(d);
      var src := d.data.value;
      data := new byte[d.bufferSize](i requires 0 <= i < d.bufferSize => src[i]);
    }

    /** Storage sized by the recomputed byte size, so that the buffer is always valid. */
    constructor Sized(d: BufferDesc)
      requires d.data.Some? && d.numOfElement * d.stride <= |d.data.value|
      ensures desc == CopyBufferDesc(d) && fresh(data) && Valid()
      ensures data[..] == d.data.value[..desc.bufferSize]
    {
      desc := CopyBufferDesc(d);
      var src := d.data.value;
      var n := d.numOfElement * d.stride;
      data := new byte[n](i requires 0 <= i < n => src[i]);
    }

    /** `SetRawData`: the size is checked before the null test; on success all bytes are replaced. */
    method SetRawData(bytes: Option<seq<byte>>, size: nat) returns (o: Outcome<Error>)
      requires Valid()
      requires bytes.Some? && size == desc.bufferSize ==> size <= |bytes.value|
      modifies data
      ensures size != desc.bufferSize ==> o == Fail(DataSizeMismatch) && data[..] == old(data[..])
      ensures size == desc.bufferSize && bytes.None? ==> o == Fail(NullData) && data[..] == old(data[..])
      ensures size == desc.bufferSize && bytes.Some? ==> o == Pass && data[..] == bytes.value[..size]
    {
      if size != desc.bufferSize {
        return Fail(DataSizeMismatch);
      }
      if bytes.None? {
        return Fail(NullData);
      }
      var src := bytes.value;
      forall i | 0 <= i < data.Length {
        data[i] := src[i];
      }
      o := Pass;
    }

    /** `GetRawData`: the byte size and a copy of all bytes. */
    method GetRawData() returns (bytes: seq<byte>, size: nat)
      requires Valid()
      ensures size == desc.bufferSize && |bytes| == size
      ensures bytes == data[..]
    {
      size := desc.bufferSize;
      bytes := data[..];
    }

    /** `GetElementData(i)`: the bytes of element `i`. */
    function GetElementData(i: nat): (e: seq<byte>)
      reads this, data
      requires (i + 1) * desc.stride <= data.Length
      ensures e == Elements(data[..], desc.stride, i + 1)[i]
    {
      ElementSlice(data[..], desc.stride, i)
    }

    /** `GetElementNum()`: in a valid buffer built by a copy, the elements fill the storage exactly. */
    function GetElementNum(): (n: nat)
      reads this
      ensures Valid() && Consistent(desc) ==> n * desc.stride == data.Length
    {
      desc.numOfElement
    }
  }

  /** A descriptor whose byte size disagrees with count times stride. */
  const OversizedDesc: BufferDesc := BufferDesc(2, 4, 4, Some([1, 2, 3, 4]))

  /**
   * With that descriptor the buffer stores 4 bytes but records 8, so the
   * size check in `SetRawData` admits an 8-byte copy into 4 bytes of storage.
   */
  lemma BufferSizeMismatch()
    ensures !Consistent(OversizedDesc)
    ensures CopyBufferDesc(OversizedDesc).bufferSize == 8 > OversizedDesc.bufferSize == 4
  {
  }

  /** The as-written constructor on that descriptor: 4 bytes of storage, 8 recorded, so the buffer is not valid. */
  method OversizedBuffer() returns (b: Buffer)
    ensures fresh(b) && b.data.Length == 4 && b.desc.bufferSize == 8 && !b.Valid()
  {
    BufferSizeMismatch();
    b := new Buffer(OversizedDesc);
  }
}
