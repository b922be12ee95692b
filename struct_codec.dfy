/** The `'!hiq'` struct format of TCP_send_recv_struct_nbo.py: a signed
    16-bit, a signed 32-bit and a signed 64-bit integer, each big-endian
    ("network byte order") two's complement, with no padding: 14 bytes. */
module StructCodec {

  import opened Opt
  import opened Bytes
  import opened Wire

  const ShortWidth: nat := 2
  const IntWidth: nat := 4
  const LongLongWidth: nat := 8
  const PackedSize: nat := ShortWidth + IntWidth + LongLongWidth

  /** The server's `recv` buffer size. */
  const RecvSize: nat := 256

  /** v is in the range of a signed w-byte integer. */
  predicate FitsSigned(v: int, w: nat)
  {
    w >= 1 && -(Pow256(w) / 2) <= v < Pow256(w) / 2
  }

  /** The w-byte two's-complement big-endian encoding of v. */
  function EncodeSigned(v: int, w: nat): (r: bytes)
    requires FitsSigned(v, w)
    ensures |r| == w
  {
    ToBE(if v >= 0 then v else v + Pow256(w), w)
  }

  /** The value of a two's-complement big-endian field. */
  function DecodeSigned(b: bytes): int
  {
    var u := FromBE(b);
    if u < Pow256(|b|) / 2 then u else u - Pow256(|b|)
  }

  lemma Pow256Even(w: nat)
    requires w >= 1
    ensures Pow256(w) == 2 * (Pow256(w) / 2)
  {
    assert Pow256(w) == 256 * Pow256(w - 1);
  }

  /** Decoding an encoded field gives the value back. */
  lemma DecodeEncodeSigned(v: int, w: nat)
    requires FitsSigned(v, w)
    ensures DecodeSigned(EncodeSigned(v, w)) == v
  {
    Pow256Even(w);
    var u := if v >= 0 then v else v + Pow256(w);
    FromToBE(u, w);
  }

  /** Every w-byte field decodes to a value in range that encodes back to
      the same bytes. */
  lemma EncodeDecodeSigned(b: bytes)
    requires |b| >= 1
    ensures FitsSigned(DecodeSigned(b), |b|)
    ensures EncodeSigned(DecodeSigned(b), |b|) == b
  {
    Pow256Even(|b|);
    ToFromBE(b);
  }

  datatype Triple = Triple(si: int, i: int, li: int)

  /** `struct.pack('!hiq', si, i, li)`; None where it raises struct.error
      (a value out of its type's range). */
  function Pack(t: Triple): (r: Option<bytes>)
    ensures r.Some? <==> FitsSigned(t.si, ShortWidth) && FitsSigned(t.i, IntWidth) && FitsSigned(t.li, LongLongWidth)
    ensures r.Some? ==> |r.value| == PackedSize
  {
    if FitsSigned(t.si, ShortWidth) && FitsSigned(t.i, IntWidth) && FitsSigned(t.li, LongLongWidth) then
      Some(EncodeSigned(t.si, ShortWidth) + EncodeSigned(t.i, IntWidth) + EncodeSigned(t.li, LongLongWidth))
    else None
  }

  /** `struct.unpack('!hiq', b)`; None where it raises struct.error (the
      buffer is not exactly 14 bytes). */
  function Unpack(b: bytes): (r: Option<Triple>)
    ensures r.Some? <==> |b| == PackedSize
  {
    if |b| != PackedSize then None
    else Some(Triple(DecodeSigned(b[..2]), DecodeSigned(b[2..6]), DecodeSigned(b[6..])))
  }

  /** Unpacking what was packed gives the triple back. */
  lemma UnpackPack(t: Triple)
    requires Pack(t).Some?
    ensures Unpack(Pack(t).value) == Some(t)
  {
    var b := Pack(t).value;
    assert b[..2] == EncodeSigned(t.si, ShortWidth);
    assert b[2..6] == EncodeSigned(t.i, IntWidth);
    assert b[6..] == EncodeSigned(t.li, LongLongWidth);
    DecodeEncodeSigned(t.si, ShortWidth);
    DecodeEncodeSigned(t.i, IntWidth);
    DecodeEncodeSigned(t.li, LongLongWidth);
  }

  /** Every 14-byte buffer is the packing of the triple it unpacks to. */
  lemma PackUnpack(b: bytes)
    requires |b| == PackedSize
    ensures Unpack(b).Some? && Pack(Unpack(b).value) == Some(b)
  {
    EncodeDecodeSigned(b[..2]);
    EncodeDecodeSigned(b[2..6]);
    EncodeDecodeSigned(b[6..]);
    assert b == b[..2] + b[2..6] + b[6..];
  }

  /** The client's values (1, 2, 3), and the commented-out alternative with
      the largest short, both pack; one more than the largest short does
      not. */
  lemma ClientValues()
    ensures Pack(Triple(1, 2, 3)) == Some([0, 1, 0, 0, 0, 2, 0, 0, 0, 0, 0, 0, 0, 3])
    ensures Pack(Triple(32767, 2000, 987654321)).Some?
    ensures Pack(Triple(32768, 2000, 987654321)).None?
    ensures Pack(Triple(-32768, 0, 0)) == Some([0x80, 0] + [0, 0, 0, 0] + [0, 0, 0, 0, 0, 0, 0, 0])
  {
    assert Pow256(2) == 65536;
    assert Pow256(4) == 4294967296;
    assert Pow256(8) == 18446744073709551616;
    assert EncodeSigned(1, 2) == [0, 1];
    assert EncodeSigned(2, 4) == [0, 0, 0, 2];
    assert EncodeSigned(3, 8) == [0, 0, 0, 0, 0, 0, 0, 3];
    assert FitsSigned(1, 2) && FitsSigned(2, 4) && FitsSigned(3, 8);
    var packed: bytes := [0, 1] + [0, 0, 0, 2] + [0, 0, 0, 0, 0, 0, 0, 3];
    assert Pack(Triple(1, 2, 3)).value == packed;
    assert packed == [0, 1, 0, 0, 0, 2, 0, 0, 0, 0, 0, 0, 0, 3];
    assert ToBE(32768, 2) == ToBE(128, 1) + [0] == [0x80, 0];
    assert EncodeSigned(-32768, 2) == [0x80, 0];
    assert EncodeSigned(0, 4) == [0, 0, 0, 0];
    assert EncodeSigned(0, 8) == [0, 0, 0, 0, 0, 0, 0, 0];
  }

  // ---------------------------------------------------------------------
  // The server's receive

  /** One blocking `recv(max)`: it waits out idle periods, then returns part
      of the next chunk, or nothing if the peer closed. */
  function BlockingRecv(inc: seq<Event>, max: nat): bytes
    requires max >= 1
  {
    if inc != [] && inc[0].Timeout? then BlockingRecv(inc[1..], max)
    else
      var s := RecvStep(inc, max);
      if s.got.Got? then s.got.data else []
  }

  /** connection_handler as written: unpack whatever the single `recv(256)`
      returned. None is the struct.error that stops the server. */
  function HandleOneRecv(inc: seq<Event>): Option<Triple>
  {
    Unpack(BlockingRecv(inc, RecvSize))
  }

  /** The handler with the read it needs: exactly 14 bytes through
      recv_bytes, then unpack. */
  function HandleExact(inc: seq<Event>): Option<Triple>
  {
    var r := ReadFrom(inc, PackedSize);
    if r.ok then Unpack(r.data) else None
  }

  /** Whatever segments the client's packed bytes arrive in, the exact
      handler unpacks the client's triple. */
  lemma HandleExactDecodes(t: Triple, more: bytes, inc: seq<Event>)
    requires Pack(t).Some?
    requires Available(inc) == Pack(t).value + more
    ensures HandleExact(inc) == Some(t)
  {
    ReadFromSpec(inc, PackedSize);
    assert (Pack(t).value + more)[..PackedSize] == Pack(t).value;
    UnpackPack(t);
  }

  /** The single `recv` is not enough: the client's 14 bytes arriving as two
      7-byte segments make the as-written handler fail while the exact one
      decodes them. */
  lemma OneRecvSplitFails()
    ensures var b := Pack(Triple(1, 2, 3)).value;
      var inc := [Data(b[..7]), Data(b[7..])];
      HandleOneRecv(inc).None? && HandleExact(inc) == Some(Triple(1, 2, 3))
  {
    ClientValues();
    var b := Pack(Triple(1, 2, 3)).value;
    var inc := [Data(b[..7]), Data(b[7..])];
    assert inc[1..] == [Data(b[7..])] && inc[1..][1..] == [];
    assert Available(inc[1..]) == b[7..] + [];
    assert Available(inc) == b[..7] + (b[7..] + []);
    assert b[..7] + (b[7..] + []) == b + [];
    HandleExactDecodes(Triple(1, 2, 3), [], inc);
    assert |BlockingRecv(inc, RecvSize)| == 7;
  }
}
