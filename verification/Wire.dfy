/** Fixed-width little-endian records: a format is a list of field widths, a record a list of
    numbers, and one codec serves every format of the chain. */
module Wire {
  import opened Powers
  import opened Types

  type byte = x: int | 0 <= x < 256

  function Pow256(n: nat): (p: nat)
    ensures p > 0
  {
    if n == 0 then 1 else 256 * Pow256(n - 1)
  }

  lemma {:induction false} WordSizes()
    ensures Pow256(1) == 256 && Pow256(2) == U16_LIMIT && Pow256(4) == U32_LIMIT
    ensures Pow256(8) == U64_LIMIT && Pow256(16) == U128_LIMIT
  {
    assert Pow256(3) == 256 * Pow256(2) && Pow256(4) == 256 * Pow256(3);
    assert Pow256(5) == 256 * Pow256(4) && Pow256(6) == 256 * Pow256(5);
    assert Pow256(7) == 256 * Pow256(6) && Pow256(8) == 256 * Pow256(7);
    assert Pow256(9) == 256 * Pow256(8) && Pow256(10) == 256 * Pow256(9);
    assert Pow256(11) == 256 * Pow256(10) && Pow256(12) == 256 * Pow256(11);
    assert Pow256(13) == 256 * Pow256(12) && Pow256(14) == 256 * Pow256(13);
    assert Pow256(15) == 256 * Pow256(14) && Pow256(16) == 256 * Pow256(15);
  }

  /** `to_le_bytes`. */
  function LittleEndian(value: nat, n: nat): (bytes: seq<byte>)
    ensures |bytes| == n
  {
    if n == 0 then [] else [value % 256] + LittleEndian(value / 256, n - 1)
  }

  /** Byte `k` is digit `k` in base 256, the lowest first. */
  lemma {:induction false} LittleEndianByte(value: nat, n: nat, k: nat)
    requires k < n
    ensures LittleEndian(value, n)[k] == value / Pow256(k) % 256
  {
    if k == 0 {
    } else {
      LittleEndianByte(value / 256, n - 1, k - 1);
      assert LittleEndian(value, n)[k] == LittleEndian(value / 256, n - 1)[k - 1];
      DivideTwice(value, Pow256(k - 1));
    }
  }

  lemma {:induction false} DivideTwice(a: nat, c: nat)
    requires c > 0
    ensures a / 256 / c == a / (256 * c)
  {
    var q := a / 256;
    var d, r := q / c, q % c;
    assert q == d * c + r;
    assert 256 * (d * c) == d * (256 * c);
    QuotientUnique(a, 256 * c, d, 256 * r + a % 256);
  }

  /** `from_le_bytes`. */
  function FromLittleEndian(bytes: seq<byte>): (value: nat)
    ensures value < Pow256(|bytes|)
  {
    if |bytes| == 0 then 0 else bytes[0] + 256 * FromLittleEndian(bytes[1..])
  }

  lemma {:induction false} NumberRoundTrip(value: nat, n: nat)
    requires value < Pow256(n)
    ensures FromLittleEndian(LittleEndian(value, n)) == value
  {
    if n == 0 {
    } else {
      NumberRoundTrip(value / 256, n - 1);
      assert LittleEndian(value, n)[1..] == LittleEndian(value / 256, n - 1);
    }
  }

  lemma {:induction false} BytesRoundTrip(bytes: seq<byte>)
    ensures LittleEndian(FromLittleEndian(bytes), |bytes|) == bytes
  {
    if |bytes| == 0 {
    } else {
      BytesRoundTrip(bytes[1..]);
      var rest := FromLittleEndian(bytes[1..]);
      assert (bytes[0] + 256 * rest) % 256 == bytes[0] && (bytes[0] + 256 * rest) / 256 == rest;
    }
  }

  // Records.

  /** The widths in bytes of a record's fields. */
  type Layout = seq<nat>

  /** Where field `k` starts. */
  function FieldStart(layout: Layout, k: nat): nat
    requires k <= |layout|
  {
    if k == 0 then 0 else FieldStart(layout, k - 1) + layout[k - 1]
  }

  function Size(layout: Layout): nat {
    FieldStart(layout, |layout|)
  }

  predicate Fits(layout: Layout, values: seq<nat>) {
    |values| == |layout| && forall k :: 0 <= k < |values| ==> values[k] < Pow256(layout[k])
  }

  /** The first `n` fields, in order. */
  function EncodeFields(layout: Layout, values: seq<nat>, n: nat): (bytes: seq<byte>)
    requires n <= |values| == |layout|
    ensures |bytes| == FieldStart(layout, n)
  {
    if n == 0 then [] else EncodeFields(layout, values, n - 1) + LittleEndian(values[n - 1], layout[n - 1])
  }

  function Encode(layout: Layout, values: seq<nat>): (bytes: seq<byte>)
    requires |values| == |layout|
    ensures |bytes| == Size(layout)
  {
    EncodeFields(layout, values, |values|)
  }

  lemma {:induction false} StartsGrow(layout: Layout, a: nat, b: nat)
    requires a <= b <= |layout|
    ensures FieldStart(layout, a) <= FieldStart(layout, b)
    decreases b - a
  {
    if a >= b {
    } else {
      StartsGrow(layout, a, b - 1);
    }
  }

  /** Field `k` read as a number, zero when its bytes are not all there. */
  function FieldNumber(layout: Layout, bytes: seq<byte>, k: nat): (value: nat)
    requires k < |layout|
    ensures value < Pow256(layout[k])
  {
    var start := FieldStart(layout, k);
    if start + layout[k] <= |bytes| then FromLittleEndian(bytes[start..start + layout[k]]) else 0
  }

  function Decode(layout: Layout, bytes: seq<byte>): (values: seq<nat>)
    ensures Fits(layout, values)
  {
    seq(|layout|, k requires 0 <= k < |layout| => FieldNumber(layout, bytes, k))
  }

  lemma {:induction false} SliceOfFront(front: seq<byte>, tail: seq<byte>, a: nat, b: nat)
    requires a <= b <= |front|
    ensures (front + tail)[a..b] == front[a..b]
  {
  }

  lemma {:induction false} TakeMore(bytes: seq<byte>, start: nat, width: nat)
    requires start + width <= |bytes|
    ensures bytes[..start + width] == bytes[..start] + bytes[start..start + width]
  {
  }

  lemma {:induction false} EncodedField(layout: Layout, values: seq<nat>, n: nat, k: nat)
    requires k < n <= |values| == |layout|
    ensures FieldStart(layout, k) + layout[k] <= FieldStart(layout, n)
    ensures EncodeFields(layout, values, n)[FieldStart(layout, k)..FieldStart(layout, k) + layout[k]]
         == LittleEndian(values[k], layout[k])
  {
    StartsGrow(layout, k + 1, n);
    if k >= n - 1 {
    } else {
      EncodedField(layout, values, n - 1, k);
      SliceOfFront(EncodeFields(layout, values, n - 1), LittleEndian(values[n - 1], layout[n - 1]),
                   FieldStart(layout, k), FieldStart(layout, k) + layout[k]);
    }
  }

  /** Encoding and then decoding, with anything after the record, gives the record back. */
  lemma {:induction false} RecordRoundTrip(layout: Layout, values: seq<nat>, rest: seq<byte>)
    requires Fits(layout, values)
    ensures Decode(layout, Encode(layout, values) + rest) == values
  {
    var bytes := Encode(layout, values);
    forall k | 0 <= k < |values|
      ensures FieldNumber(layout, bytes + rest, k) == values[k]
    {
      FieldBack(layout, values, rest, k);
    }
  }

  lemma {:induction false} FieldBack(layout: Layout, values: seq<nat>, rest: seq<byte>, k: nat)
    requires Fits(layout, values) && k < |values|
    ensures FieldNumber(layout, Encode(layout, values) + rest, k) == values[k]
  {
    EncodedField(layout, values, |values|, k);
    var start := FieldStart(layout, k);
    SliceOfFront(Encode(layout, values), rest, start, start + layout[k]);
    NumberRoundTrip(values[k], layout[k]);
  }

  /** Field `k` of a record holds these bytes. */
  predicate FieldMatches(layout: Layout, values: seq<nat>, bytes: seq<byte>, k: nat)
    requires k < |layout| == |values|
  {
    var start := FieldStart(layout, k);
    start + layout[k] <= |bytes| && LittleEndian(values[k], layout[k]) == bytes[start..start + layout[k]]
  }

  lemma {:induction false} FieldsMatch(layout: Layout, values: seq<nat>, bytes: seq<byte>, n: nat)
    requires n <= |layout| == |values| && forall k :: 0 <= k < n ==> FieldMatches(layout, values, bytes, k)
    ensures FieldStart(layout, n) <= |bytes|
    ensures EncodeFields(layout, values, n) == bytes[..FieldStart(layout, n)]
  {
    if n == 0 {
    } else {
      FieldsMatch(layout, values, bytes, n - 1);
      assert FieldMatches(layout, values, bytes, n - 1);
      TakeMore(bytes, FieldStart(layout, n - 1), layout[n - 1]);
    }
  }

  lemma {:induction false} DecodedField(layout: Layout, bytes: seq<byte>, k: nat)
    requires k < |layout| && |bytes| >= Size(layout)
    ensures FieldMatches(layout, Decode(layout, bytes), bytes, k)
  {
    StartsGrow(layout, k + 1, |layout|);
    SliceRoundTrip(bytes, FieldStart(layout, k), layout[k]);
  }

  lemma {:induction false} SliceRoundTrip(bytes: seq<byte>, start: nat, width: nat)
    requires start + width <= |bytes|
    ensures LittleEndian(FromLittleEndian(bytes[start..start + width]), width) == bytes[start..start + width]
  {
    BytesRoundTrip(bytes[start..start + width]);
  }

  /** Decoding and then encoding gives the bytes back: there is one encoding per record. */
  lemma {:induction false} RecordCanonical(layout: Layout, bytes: seq<byte>)
    requires |bytes| >= Size(layout)
    ensures Encode(layout, Decode(layout, bytes)) == bytes[..Size(layout)]
  {
    var values := Decode(layout, bytes);
    forall k | 0 <= k < |layout|
      ensures FieldMatches(layout, values, bytes, k)
    {
      DecodedField(layout, bytes, k);
    }
    FieldsMatch(layout, values, bytes, |layout|);
  }

  /** Overwrite a range of bytes in place. */
  function Patch(bytes: seq<byte>, at: nat, with: seq<byte>): seq<byte>
    requires at + |with| <= |bytes|
  {
    bytes[..at] + with + bytes[at + |with|..]
  }

  lemma {:induction false} PatchPrefix(bytes: seq<byte>, tail: seq<byte>, at: nat, with: seq<byte>)
    requires at + |with| <= |bytes|
    ensures Patch(bytes + tail, at, with) == Patch(bytes, at, with) + tail
  {
  }

  lemma {:induction false} EarlierFields(layout: Layout, values: seq<nat>, k: nat, value: nat, n: nat)
    requires n <= k < |values| == |layout|
    ensures EncodeFields(layout, values[k := value], n) == EncodeFields(layout, values, n)
  {
    if n > 0 {
      EarlierFields(layout, values, k, value, n - 1);
    }
  }

  /** Patching the bytes of one field is encoding the record with that field changed. */
  lemma {:induction false} PatchField(layout: Layout, values: seq<nat>, k: nat, value: nat, n: nat)
    requires k < n <= |values| == |layout|
    ensures FieldStart(layout, k) + layout[k] <= FieldStart(layout, n)
    ensures EncodeFields(layout, values[k := value], n)
         == Patch(EncodeFields(layout, values, n), FieldStart(layout, k), LittleEndian(value, layout[k]))
  {
    StartsGrow(layout, k + 1, n);
    var with := LittleEndian(value, layout[k]);
    if n - 1 == k {
      EarlierFields(layout, values, k, value, k);
      var front := EncodeFields(layout, values, k);
      assert Patch(front + LittleEndian(values[k], layout[k]), |front|, with) == front + with;
    } else {
      PatchField(layout, values, k, value, n - 1);
      PatchPrefix(EncodeFields(layout, values, n - 1), LittleEndian(values[n - 1], layout[n - 1]),
                  FieldStart(layout, k), with);
    }
  }

  // The chain's records. A 256-bit word is two 16-byte fields.

  /** Three digests, timestamp, height, miner address, nonce, target, depth, two counters. */
  const HEADER_LAYOUT: Layout := [16, 16, 16, 16, 16, 16, 8, 8, 16, 16, 16, 16, 16, 4, 8, 8]

  const NONCE_FIELD: nat := 10

  /** Anchor, fee, owner, eight (slot, amount, id), two (slot, amount, owner), bitmap, coinbase flag. */
  function BodyWidth(k: nat): nat {
    if k < 2 then 16 else if k == 2 then 8 else if k < 5 then 16
    else if k < 29 then (if (k - 5) % 3 == 0 then 4 else 8)
    else if k < 37 then (if (k - 29) % 4 == 0 then 4 else if (k - 29) % 4 == 1 then 8 else 16)
    else if k == 37 then 2 else 1
  }

  const BODY_FIELDS: nat := 39

  function BodyLayout(): Layout {
    seq(BODY_FIELDS, k requires 0 <= k => BodyWidth(k))
  }

  const COUNT_LAYOUT: Layout := [4]

  /** Version, height, hash, class. */
  const PREFIX_LAYOUT: Layout := [1, 8, 16, 16, 1]

  /** Magic, block length, terminal length. */
  const BUNDLE_LAYOUT: Layout := [4, 4, 4]

  // Sizes.

  lemma {:induction false} HeaderSizes()
    ensures FieldStart(HEADER_LAYOUT, NONCE_FIELD) == 144 && Size(HEADER_LAYOUT) == 212
  {
    var h := HEADER_LAYOUT;
    assert FieldStart(h, 2) == 32;
    assert FieldStart(h, 4) == 64;
    assert FieldStart(h, 6) == 96;
    assert FieldStart(h, 8) == 112;
    assert FieldStart(h, 10) == 144;
    assert FieldStart(h, 12) == 176;
    assert FieldStart(h, 14) == 196;
    assert FieldStart(h, 16) == 212;
  }

  lemma {:induction false} InputStart(i: nat)
    requires i <= 8
    ensures FieldStart(BodyLayout(), 5 + 3 * i) == 72 + 20 * i
  {
    var b := BodyLayout();
    if i == 0 {
      assert FieldStart(b, 1) == 16;
      assert FieldStart(b, 3) == 40;
      assert FieldStart(b, 5) == 72;
    } else {
      InputStart(i - 1);
      var k := 5 + 3 * (i - 1);
      assert b[k] == 4 && b[k + 1] == 8 && b[k + 2] == 8;
      assert FieldStart(b, k + 1) == FieldStart(b, k) + 4;
      assert FieldStart(b, k + 2) == FieldStart(b, k) + 12;
    }
  }

  lemma {:induction false} OutputStart(i: nat)
    requires i <= 2
    ensures FieldStart(BodyLayout(), 29 + 4 * i) == 232 + 44 * i
  {
    var b := BodyLayout();
    if i == 0 {
      InputStart(8);
    } else {
      OutputStart(i - 1);
      var k := 29 + 4 * (i - 1);
      assert b[k] == 4 && b[k + 1] == 8 && b[k + 2] == 16 && b[k + 3] == 16;
      assert FieldStart(b, k + 1) == FieldStart(b, k) + 4;
      assert FieldStart(b, k + 2) == FieldStart(b, k) + 12;
      assert FieldStart(b, k + 3) == FieldStart(b, k) + 28;
    }
  }

  lemma {:induction false} BodySize()
    ensures Size(BodyLayout()) == 323
  {
    var b := BodyLayout();
    OutputStart(2);
    assert b[37] == 2 && b[38] == 1;
    assert FieldStart(b, 38) == 322;
  }

  lemma {:induction false} SmallSizes()
    ensures Size(COUNT_LAYOUT) == 4 && Size(PREFIX_LAYOUT) == 42 && Size(BUNDLE_LAYOUT) == 12
  {
    assert FieldStart(COUNT_LAYOUT, 0) == 0;
    assert FieldStart(PREFIX_LAYOUT, 2) == 9;
    assert FieldStart(PREFIX_LAYOUT, 4) == 41;
    assert FieldStart(BUNDLE_LAYOUT, 2) == 8;
  }

  // The mutable buffer and cursor the code works with.

  datatype WireError = Truncated | TrailingBytes | InvalidBool | BadMarker | NonCanonicalBody | LengthOverflow

  class WireBuffer {
    var bytes: seq<byte>

    constructor ()
      ensures bytes == []
    {
      bytes := [];
    }

    method Put(value: nat, width: nat)
      modifies this
      ensures bytes == old(bytes) + LittleEndian(value, width)
    {
      bytes := bytes + LittleEndian(value, width);
    }

    /** Append a record, field by field. */
    method PutRecord(layout: Layout, values: seq<nat>)
      requires |values| == |layout|
      modifies this
      ensures bytes == old(bytes) + Encode(layout, values)
    {
      for k := 0 to |values|
        invariant bytes == old(bytes) + EncodeFields(layout, values, k)
      {
        Put(values[k], layout[k]);
        assert old(bytes) + EncodeFields(layout, values, k + 1)
            == old(bytes) + EncodeFields(layout, values, k) + LittleEndian(values[k], layout[k]);
      }
    }
  }

  class WireCursor {
    var src: seq<byte>

    constructor (bytes: seq<byte>)
      ensures src == bytes
    {
      src := bytes;
    }

    /** Advance over `n` bytes, or fail without moving. */
    method Take(n: nat) returns (r: Result<seq<byte>, WireError>)
      modifies this
      ensures r.Ok? <==> n <= |old(src)|
      ensures r.Ok? ==> r.value == old(src)[..n] && src == old(src)[n..]
      ensures r.Err? ==> r.error == Truncated && src == old(src)
    {
      if |src| < n {
        return Err(Truncated);
      }
      r := Ok(src[..n]);
      src := src[n..];
    }

    /** Read a record field by field; the fields are there exactly when all its bytes are. */
    method TakeRecord(layout: Layout) returns (r: Result<seq<nat>, WireError>)
      modifies this
      ensures r.Ok? <==> Size(layout) <= |old(src)|
      ensures r.Ok? ==> r.value == Decode(layout, old(src)) && src == old(src)[Size(layout)..]
      ensures r.Err? ==> r.error == Truncated
    {
      var values: seq<nat> := [];
      for k := 0 to |layout|
        invariant FieldStart(layout, k) <= |old(src)| && src == old(src)[FieldStart(layout, k)..]
        invariant |values| == k && forall j :: 0 <= j < k ==> values[j] == FieldNumber(layout, old(src), j)
      {
        var field := Take(layout[k]);
        if field.Err? {
          StartsGrow(layout, k + 1, |layout|);
          return Err(field.error);
        }
        assert field.value == old(src)[FieldStart(layout, k)..FieldStart(layout, k) + layout[k]];
        values := values + [FromLittleEndian(field.value)];
      }
      r := Ok(values);
    }
  }
}
