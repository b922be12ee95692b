/** Bytes and the fixed-width big-endian integer fields the protocols put on
    the wire (Python's `int.to_bytes(w, byteorder='big')` and
    `int.from_bytes(b, byteorder='big')`). */
module Bytes {

  import opened Opt

  type byte = b: int | 0 <= b < 256
  type bytes = seq<byte>

  /** 256^w: the number of values a w-byte unsigned field can hold. */
  function Pow256(w: nat): (r: nat)
    ensures r >= 1
  {
    if w == 0 then 1 else 256 * Pow256(w - 1)
  }

  /** The w-byte big-endian encoding of n (n must fit). */
  function ToBE(n: nat, w: nat): (r: bytes)
    requires n < Pow256(w)
    ensures |r| == w
  {
    if w == 0 then [] else ToBE(n / 256, w - 1) + [n % 256]
  }

  /** The value of a big-endian byte string; `from_bytes(b'')` is 0. */
  function FromBE(b: bytes): nat
  {
    if b == [] then 0 else FromBE(b[..|b| - 1]) * 256 + b[|b| - 1]
  }

  /** `n.to_bytes(w, 'big')`: None where Python raises OverflowError
      (a negative value or one that needs more than w bytes). */
  function IntToBytes(n: int, w: nat): (r: Option<bytes>)
    ensures r.Some? <==> 0 <= n < Pow256(w)
    ensures r.Some? ==> |r.value| == w && FromBE(r.value) == n
  {
    if 0 <= n < Pow256(w) then
      FromToBE(n, w);
      Some(ToBE(n, w))
    else None
  }

  lemma {:induction false} FromBEBound(b: bytes)
    ensures FromBE(b) < Pow256(|b|)
  {
    if b != [] {
      var init := b[..|b| - 1];
      FromBEBound(init);
      assert FromBE(b) == FromBE(init) * 256 + b[|b| - 1];
      assert FromBE(init) + 1 <= Pow256(|init|);
      assert (FromBE(init) + 1) * 256 <= Pow256(|init|) * 256;
    }
  }

  /** Decoding an encoding gives the value back. */
  lemma {:induction false} FromToBE(n: nat, w: nat)
    requires n < Pow256(w)
    ensures FromBE(ToBE(n, w)) == n
  {
    if w > 0 {
      assert n / 256 < Pow256(w - 1);
      var r := ToBE(n, w);
      assert r[..|r| - 1] == ToBE(n / 256, w - 1);
      FromToBE(n / 256, w - 1);
    }
  }

  /** Encoding a decoded field at its own width gives the bytes back. */
  lemma {:induction false} ToFromBE(b: bytes)
    ensures FromBE(b) < Pow256(|b|)
    ensures ToBE(FromBE(b), |b|) == b
  {
    FromBEBound(b);
    if b != [] {
      var init := b[..|b| - 1];
      ToFromBE(init);
      var v := FromBE(b);
      assert v / 256 == FromBE(init) && v % 256 == b[|b| - 1];
      assert b == init + [b[|b| - 1]];
    }
  }

  /** Two equal-width encodings are equal only for equal values. */
  lemma ToBEInjective(m: nat, n: nat, w: nat)
    requires m < Pow256(w) && n < Pow256(w)
    requires ToBE(m, w) == ToBE(n, w)
    ensures m == n
  {
    FromToBE(m, w);
    FromToBE(n, w);
  }
}
