/**
 The length-prefixed frame format shared by the receiving ingestor and the
 broadcasting relay: `struct.pack("L", len(data)) + data`.

 The prefix is an unsigned integer of the platform's native "long" width
 (`struct.calcsize("L")`) in the platform's native byte order, so both the
 width `w` and the byte order are parameters here.
 */
module Framing {
  import opened Common

  /** The platform's native byte order, which `struct` uses for format "L". */
  datatype ByteOrder = LittleEndian | BigEndian

  /** 256^w: the number of distinct values a w-byte prefix can hold. */
  function Capacity(w: nat): (c: nat)
    ensures c >= 1
    ensures w > 0 ==> c >= 256
  {
    if w == 0 then 1 else 256 * Capacity(w - 1)
  }

  /** Least significant byte first. */
  function EncodeLE(n: nat, w: nat): (h: seq<byte>)
    ensures |h| == w
  {
    if w == 0 then [] else [n % 256] + EncodeLE(n / 256, w - 1)
  }

  /** Most significant byte first. */
  function EncodeBE(n: nat, w: nat): (h: seq<byte>)
    ensures |h| == w
  {
    if w == 0 then [] else EncodeBE(n / 256, w - 1) + [n % 256]
  }

  function DecodeLE(h: seq<byte>): nat
  {
    if h == [] then 0 else h[0] + 256 * DecodeLE(h[1..])
  }

  function DecodeBE(h: seq<byte>): nat
  {
    if h == [] then 0 else 256 * DecodeBE(h[..|h| - 1]) + h[|h| - 1]
  }

  /** `struct.pack("L", n)`: the w-byte prefix announcing a payload of n bytes. */
  function EncodeSize(n: nat, w: nat, order: ByteOrder): (h: seq<byte>)
    ensures |h| == w
  {
    match order
    case LittleEndian => EncodeLE(n, w)
    case BigEndian => EncodeBE(n, w)
  }

  /** `struct.unpack("L", h)[0]`: the payload size a prefix announces. */
  function DecodeSize(h: seq<byte>, order: ByteOrder): nat
  {
    match order
    case LittleEndian => DecodeLE(h)
    case BigEndian => DecodeBE(h)
  }

  /**
   The bytes the relay writes for one payload (`struct.pack("L", len(data)) + data`),
   or None when the length does not fit the prefix and `struct.pack` raises.
   */
  function Pack(w: nat, order: ByteOrder, payload: seq<byte>): Option<seq<byte>>
  {
    if |payload| < Capacity(w) then Some(EncodeSize(|payload|, w, order) + payload) else None
  }

  /** The byte stream a producer writes for a sequence of payloads, one frame after another. */
  function PackAll(w: nat, order: ByteOrder, payloads: seq<seq<byte>>): Option<seq<byte>>
  {
    if payloads == [] then Some([])
    else
      var first, rest := Pack(w, order, payloads[0]), PackAll(w, order, payloads[1..]);
      if first.Some? && rest.Some? then Some(first.value + rest.value) else None
  }

  // ---------------------------------------------------------------------------
  // The prefix is a bijection between sizes below Capacity(w) and w-byte strings.

  lemma {:induction false} DecodeLEBound(h: seq<byte>)
    ensures DecodeLE(h) < Capacity(|h|)
  {
    if h != [] {
      DecodeLEBound(h[1..]);
    }
  }

  lemma {:induction false} DecodeBEBound(h: seq<byte>)
    ensures DecodeBE(h) < Capacity(|h|)
  {
    if h != [] {
      DecodeBEBound(h[..|h| - 1]);
    }
  }

  lemma {:induction false} LittleEndianRoundTrip(n: nat, w: nat)
    requires n < Capacity(w)
    ensures DecodeLE(EncodeLE(n, w)) == n
  {
    if w > 0 {
      var h := EncodeLE(n, w);
      assert h[1..] == EncodeLE(n / 256, w - 1);
      LittleEndianRoundTrip(n / 256, w - 1);
    }
  }

  lemma {:induction false} BigEndianRoundTrip(n: nat, w: nat)
    requires n < Capacity(w)
    ensures DecodeBE(EncodeBE(n, w)) == n
  {
    if w > 0 {
      var h := EncodeBE(n, w);
      assert h[..|h| - 1] == EncodeBE(n / 256, w - 1);
      BigEndianRoundTrip(n / 256, w - 1);
    }
  }

  lemma {:induction false} LittleEndianCanonical(h: seq<byte>)
    ensures EncodeLE(DecodeLE(h), |h|) == h
  {
    if h != [] {
      var d := DecodeLE(h[1..]);
      assert DecodeLE(h) / 256 == d && DecodeLE(h) % 256 == h[0];
      LittleEndianCanonical(h[1..]);
    }
  }

  lemma {:induction false} BigEndianCanonical(h: seq<byte>)
    ensures EncodeBE(DecodeBE(h), |h|) == h
  {
    if h != [] {
      var init := h[..|h| - 1];
      assert DecodeBE(h) / 256 == DecodeBE(init) && DecodeBE(h) % 256 == h[|h| - 1];
      BigEndianCanonical(init);
      assert h == init + [h[|h| - 1]];
    }
  }

  /** Decoding the prefix of a size gives the size back. */
  lemma SizeRoundTrip(n: nat, w: nat, order: ByteOrder)
    requires n < Capacity(w)
    ensures DecodeSize(EncodeSize(n, w, order), order) == n
  {
    match order
    case LittleEndian => LittleEndianRoundTrip(n, w);
    case BigEndian => BigEndianRoundTrip(n, w);
  }

  /** Every w-byte string is the prefix of exactly the size it decodes to. */
  lemma PrefixRoundTrip(h: seq<byte>, order: ByteOrder)
    ensures DecodeSize(h, order) < Capacity(|h|)
    ensures EncodeSize(DecodeSize(h, order), |h|, order) == h
  {
    match order
    case LittleEndian => DecodeLEBound(h); LittleEndianCanonical(h);
    case BigEndian => DecodeBEBound(h); BigEndianCanonical(h);
  }

  /** `struct.pack` succeeds exactly for payloads shorter than 256^w bytes, and then
      the frame is the w-byte prefix announcing the payload's length, then the payload. */
  lemma PackShape(w: nat, order: ByteOrder, payload: seq<byte>)
    ensures Pack(w, order, payload).Some? <==> |payload| < Capacity(w)
    ensures Pack(w, order, payload).Some? ==>
      var f := Pack(w, order, payload).value;
      |f| == w + |payload| && f[w..] == payload && DecodeSize(f[..w], order) == |payload|
  {
    if |payload| < Capacity(w) {
      var f := Pack(w, order, payload).value;
      assert f[..w] == EncodeSize(|payload|, w, order);
      SizeRoundTrip(|payload|, w, order);
    }
  }

  /** Sending one more payload appends its frame to the stream. */
  lemma {:induction false} PackAllSnoc(w: nat, order: ByteOrder, payloads: seq<seq<byte>>, p: seq<byte>)
    requires PackAll(w, order, payloads).Some? && Pack(w, order, p).Some?
    ensures PackAll(w, order, payloads + [p]) == Some(PackAll(w, order, payloads).value + Pack(w, order, p).value)
  {
    if payloads == [] {
      assert payloads + [p] == [p];
      assert [p][1..] == [];
      assert PackAll(w, order, [p]) == Some(Pack(w, order, p).value + []);
      assert Pack(w, order, p).value + [] == Pack(w, order, p).value;
      assert PackAll(w, order, payloads).value == [];
      assert [] + Pack(w, order, p).value == Pack(w, order, p).value;
    } else {
      var ps := payloads + [p];
      assert ps[0] == payloads[0] && ps[1..] == payloads[1..] + [p];
      PackAllSnoc(w, order, payloads[1..], p);
      AppendAssoc(Pack(w, order, payloads[0]).value, PackAll(w, order, payloads[1..]).value, Pack(w, order, p).value);
    }
  }
}
