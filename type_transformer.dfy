/**
 * The copy helpers of src/_helper/type-transformer.service.js: a Buffer (or
 * any indexed source) copied into a plain array, and into a Uint8Array,
 * whose stores reduce each number modulo 256.
 */
module TypeTransformer {
  import opened Bus

  /** A Uint8Array store of an integer: the value modulo 2^8, never negative. */
  function ToUint8(x: int): (b: Byte)
    ensures 0 <= x < 256 ==> b == x
    ensures (x - b) % 256 == 0
  {
    x % 256
  }

  /** A byte survives a second store unchanged. */
  lemma ToUint8Idempotent(x: int)
    ensures ToUint8(ToUint8(x)) == ToUint8(x)
  {
  }

  /** The elements of a Uint8Array filled from `s`. */
  function Uint8Of(s: seq<int>): (r: seq<Byte>)
    ensures |r| == |s| && forall i :: 0 <= i < |s| ==> r[i] == ToUint8(s[i])
  {
    seq(|s|, i requires 0 <= i < |s| => ToUint8(s[i]))
  }

  /** Copying bytes into a Uint8Array is the same as copying them into an array. */
  lemma Uint8OfBytes(s: seq<int>)
    requires forall i :: 0 <= i < |s| ==> 0 <= s[i] < 256
    ensures Uint8Of(s) == s
  {
  }

  /** toArray: a new array of the source's length, element i copied from source[i]; the source is not written. */
  method ToArray(source: array<int>) returns (a: array<int>)
    ensures fresh(a) && a.Length == source.Length && a[..] == source[..]
  {
    a := new int[source.Length];
    var i := 0;
    while i < source.Length
      invariant 0 <= i <= source.Length
      invariant forall j :: 0 <= j < i ==> a[j] == source[j]
    {
      a[i] := source[i];
      i := i + 1;
    }
  }

  /** toUInt8Array: the same walk, each element stored as a byte. */
  method ToUInt8Array(source: array<int>) returns (a: array<Byte>)
    ensures fresh(a) && a[..] == Uint8Of(source[..])
  {
    a := new Byte[source.Length];
    var i := 0;
    while i < source.Length
      invariant 0 <= i <= source.Length
      invariant forall j :: 0 <= j < i ==> a[j] == ToUint8(source[j])
    {
      a[i] := ToUint8(source[i]);
      i := i + 1;
    }
  }

  /** The unit test: the buffer of hex ff9c0000023300002f, its nine bytes, goes through toArray unchanged. */
  method FrameToArray() returns (r: seq<int>)
    ensures r == [255, 156, 0, 0, 2, 51, 0, 0, 47]
  {
    var buffer := new int[9] [255, 156, 0, 0, 2, 51, 0, 0, 47];
    var a := ToArray(buffer);
    r := a[..];
  }

  /** The same nine bytes copied into a Uint8Array are themselves; out-of-range numbers wrap. */
  lemma FrameExample()
    ensures Uint8Of([255, 156, 0, 0, 2, 51, 0, 0, 47]) == [255, 156, 0, 0, 2, 51, 0, 0, 47]
    ensures Uint8Of([256, 511, -1]) == [0, 255, 255]
  {
    Uint8OfBytes([255, 156, 0, 0, 2, 51, 0, 0, 47]);
  }
}
