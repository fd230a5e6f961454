/**
 * Byte buffers and `Uint8Array` views over them. An encoder may hand back a view onto a
 * larger pooled buffer; before a view is written to a socket its window is copied out.
 */
module Bytes {

  /** One octet. */
  type Byte = b: int | 0 <= b < 256

  /** A `Uint8Array`: `byteLength` bytes of `buffer`, starting at `byteOffset`. */
  datatype ByteView = ByteView(buffer: seq<Byte>, byteOffset: nat, byteLength: nat)

  /** A typed-array view never reaches past the end of its underlying buffer. */
  type Uint8View = v: ByteView | v.byteOffset + v.byteLength <= |v.buffer| witness ByteView([], 0, 0)

  /** `view[i]`: the i-th byte a view shows. */
  function At(v: Uint8View, i: nat): Byte
    requires i < v.byteLength
  {
    v.buffer[v.byteOffset + i]
  }

  /**
   * `ArrayBuffer.prototype.slice(start, end)` for non-negative arguments: both ends are
   * clamped to the buffer's length, and an end before the start yields nothing.
   */
  function Slice(buffer: seq<Byte>, start: nat, end: nat): seq<Byte>
  {
    var lo := if start < |buffer| then start else |buffer|;
    var hi := if end < |buffer| then end else |buffer|;
    if hi <= lo then [] else buffer[lo..hi]
  }

  /** The bytes a view shows, copied out of its buffer into a buffer of their own. */
  function ToArrayBuffer(v: Uint8View): (r: seq<Byte>)
    ensures |r| == v.byteLength
    ensures forall i :: 0 <= i < |r| ==> r[i] == At(v, i)
  {
    Slice(v.buffer, v.byteOffset, v.byteOffset + v.byteLength)
  }

  /** A view that covers its whole buffer is copied unchanged. */
  lemma ToArrayBufferWhole(v: Uint8View)
    requires v.byteOffset == 0 && v.byteLength == |v.buffer|
    ensures ToArrayBuffer(v) == v.buffer
  {
  }

  /**
   * The copy depends only on the bytes inside the window: whatever else the pooled buffer
   * holds before or after the view is never sent.
   */
  lemma ToArrayBufferOnlyWindow(v: Uint8View, w: Uint8View)
    requires v.byteLength == w.byteLength
    requires forall i :: 0 <= i < v.byteLength ==> At(v, i) == At(w, i)
    ensures ToArrayBuffer(v) == ToArrayBuffer(w)
  {
    var a, b := ToArrayBuffer(v), ToArrayBuffer(w);
    assert |a| == |b|;
    forall i | 0 <= i < |a| ensures a[i] == b[i] { }
  }
}
