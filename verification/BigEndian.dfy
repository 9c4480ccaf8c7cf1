/** Byte strings as big-endian numbers. */
module BigEndian {
  import opened Prelude

  type Bytes = seq<Byte>

  function Pow256(n: nat): (p: nat)
    ensures p > 0
  {
    if n == 0 then 1 else 256 * Pow256(n - 1)
  }

  /** The number that a byte string writes, most significant byte first. */
  function ToNat(bytes: Bytes): nat {
    if bytes == [] then 0 else 256 * ToNat(bytes[..|bytes| - 1]) + bytes[|bytes| - 1]
  }

  /** The `width` low bytes of n. */
  function ToBytes(n: nat, width: nat): (bytes: Bytes)
    ensures |bytes| == width
  {
    if width == 0 then [] else ToBytes(n / 256, width - 1) + [n % 256]
  }

  lemma {:induction false} ToNatBound(bytes: Bytes)
    ensures ToNat(bytes) < Pow256(|bytes|)
  {
    if bytes != [] { ToNatBound(bytes[..|bytes| - 1]); }
  }

  /** Writing a number and reading it back, whenever it fits. */
  lemma {:induction false} WriteRead(n: nat, width: nat)
    requires n < Pow256(width)
    ensures ToNat(ToBytes(n, width)) == n
  {
    if width > 0 {
      WriteRead(n / 256, width - 1);
      assert ToBytes(n, width)[..width - 1] == ToBytes(n / 256, width - 1);
    }
  }

  /** Reading a byte string and writing it back at its own width. */
  lemma {:induction false} ReadWrite(bytes: Bytes)
    ensures ToBytes(ToNat(bytes), |bytes|) == bytes
  {
    if bytes != [] {
      var front, last := bytes[..|bytes| - 1], bytes[|bytes| - 1];
      ReadWrite(front);
      assert ToNat(bytes) / 256 == ToNat(front) && ToNat(bytes) % 256 == last;
      assert bytes == front + [last];
    }
  }

  /** Equal numbers of equal width are equal byte strings. */
  lemma ToNatInjective(a: Bytes, b: Bytes)
    requires |a| == |b| && ToNat(a) == ToNat(b)
    ensures a == b
  {
    ReadWrite(a);
    ReadWrite(b);
  }
}
