/** Headers and transaction bodies as fixed-width records. */
module RecordWire {
  import opened Types
  import opened Transactions
  import opened Wire

  type WireHeader = BlockHeader<Word256>

  type WireBody = body: TxBody<Word256> | FixedShape(body)
    witness TxBody(ZERO_WORD, 0, ZERO_WORD, seq(TX_INPUTS, i => DUMMY_INPUT), seq(TX_OUTPUTS, i => DUMMY_OUTPUT), 0,
                   false)

  // Headers.

  function HeaderFields(h: WireHeader): (fields: seq<nat>)
    ensures Fits(HEADER_LAYOUT, fields)
  {
    WordSizes();
    [h.prevBlockHash.first, h.prevBlockHash.second, h.stateRoot.first, h.stateRoot.second, h.txRoot.first,
     h.txRoot.second,
     h.timestamp, h.height, h.minerAddress.first, h.minerAddress.second, h.nonce,
     h.difficultyTarget.first, h.difficultyTarget.second, h.logSlots, h.activeSlotCount, h.allocCounter]
  }

  function HeaderOf(v: seq<nat>): WireHeader
    requires Fits(HEADER_LAYOUT, v)
  {
    WordSizes();
    BlockHeader(Word256(v[0], v[1]), Word256(v[2], v[3]), Word256(v[4], v[5]), v[6], v[7], Word256(v[8], v[9]), v[10],
                Word256(v[11], v[12]), v[13], v[14], v[15])
  }

  function EncodeHeader(h: WireHeader): (bytes: seq<byte>)
    ensures |bytes| == Size(HEADER_LAYOUT)
  {
    Encode(HEADER_LAYOUT, HeaderFields(h))
  }

  function DecodeHeader(src: seq<byte>): Result<(WireHeader, seq<byte>), WireError> {
    if |src| < Size(HEADER_LAYOUT) then Err(Truncated)
    else Ok((HeaderOf(Decode(HEADER_LAYOUT, src)), src[Size(HEADER_LAYOUT)..]))
  }

  lemma {:induction false} HeaderRoundTrip(h: WireHeader, rest: seq<byte>)
    ensures DecodeHeader(EncodeHeader(h) + rest) == Ok((h, rest))
  {
    RecordRoundTrip(HEADER_LAYOUT, HeaderFields(h), rest);
  }

  lemma {:induction false} HeaderFieldsBack(v: seq<nat>)
    requires Fits(HEADER_LAYOUT, v)
    ensures HeaderFields(HeaderOf(v)) == v
  {
  }

  lemma {:induction false} HeaderCanonical(src: seq<byte>)
    requires DecodeHeader(src).Ok?
    ensures src == EncodeHeader(DecodeHeader(src).value.0) + DecodeHeader(src).value.1
  {
    RecordCanonical(HEADER_LAYOUT, src);
    HeaderFieldsBack(Decode(HEADER_LAYOUT, src));
  }

  /** Field `k` of a record starts at `start` and holds `value` in `width` bytes. */
  predicate At(bytes: seq<byte>, start: nat, width: nat, value: nat) {
    start + width <= |bytes| && bytes[start..start + width] == LittleEndian(value, width)
  }

  lemma {:induction false} FieldAt(layout: Layout, values: seq<nat>, k: nat, start: nat)
    requires k < |values| == |layout| && FieldStart(layout, k) == start
    ensures At(Encode(layout, values), start, layout[k], values[k])
  {
    EncodedField(layout, values, |values|, k);
  }

  lemma {:induction false} HeaderStarts()
    ensures var h := HEADER_LAYOUT;
            && FieldStart(h, 0) == 0 && FieldStart(h, 1) == 16 && FieldStart(h, 2) == 32 && FieldStart(h, 3) == 48
            && FieldStart(h, 4) == 64 && FieldStart(h, 5) == 80 && FieldStart(h, 6) == 96 && FieldStart(h, 7) == 104
            && FieldStart(h, 8) == 112 && FieldStart(h, 9) == 128 && FieldStart(h, 10) == 144
            && FieldStart(h, 11) == 160 && FieldStart(h, 12) == 176 && FieldStart(h, 13) == 192
            && FieldStart(h, 14) == 196 && FieldStart(h, 15) == 204
  {
    var h := HEADER_LAYOUT;
    assert FieldStart(h, 1) == 16 && FieldStart(h, 2) == 32;
    assert FieldStart(h, 3) == 48 && FieldStart(h, 4) == 64;
    assert FieldStart(h, 5) == 80 && FieldStart(h, 6) == 96;
    assert FieldStart(h, 7) == 104 && FieldStart(h, 8) == 112;
    assert FieldStart(h, 9) == 128 && FieldStart(h, 10) == 144;
    assert FieldStart(h, 11) == 160 && FieldStart(h, 12) == 176;
    assert FieldStart(h, 13) == 192 && FieldStart(h, 14) == 196;
  }

  /** The header's bytes, field by field: three digests, time, height, miner, nonce, target, depth and the
      two counters, each at its documented offset. */
  lemma {:induction false} HeaderOffsets(h: WireHeader)
    ensures var b := EncodeHeader(h);
            && At(b, 0, 16, h.prevBlockHash.first) && At(b, 16, 16, h.prevBlockHash.second)
            && At(b, 32, 16, h.stateRoot.first) && At(b, 48, 16, h.stateRoot.second)
            && At(b, 64, 16, h.txRoot.first) && At(b, 80, 16, h.txRoot.second)
            && At(b, 96, 8, h.timestamp) && At(b, 104, 8, h.height)
            && At(b, 112, 16, h.minerAddress.first) && At(b, 128, 16, h.minerAddress.second)
            && At(b, 144, 16, h.nonce)
            && At(b, 160, 16, h.difficultyTarget.first) && At(b, 176, 16, h.difficultyTarget.second)
            && At(b, 192, 4, h.logSlots) && At(b, 196, 8, h.activeSlotCount) && At(b, 204, 8, h.allocCounter)
  {
    HeaderStarts();
    var layout, f := HEADER_LAYOUT, HeaderFields(h);
    FieldAt(layout, f, 0, 0);
    FieldAt(layout, f, 1, 16);
    FieldAt(layout, f, 2, 32);
    FieldAt(layout, f, 3, 48);
    FieldAt(layout, f, 4, 64);
    FieldAt(layout, f, 5, 80);
    FieldAt(layout, f, 6, 96);
    FieldAt(layout, f, 7, 104);
    FieldAt(layout, f, 8, 112);
    FieldAt(layout, f, 9, 128);
    FieldAt(layout, f, 10, 144);
    FieldAt(layout, f, 11, 160);
    FieldAt(layout, f, 12, 176);
    FieldAt(layout, f, 13, 192);
    FieldAt(layout, f, 14, 196);
    FieldAt(layout, f, 15, 204);
  }

  /** Overwriting the 16 nonce bytes of an encoded header changes the nonce and nothing else. */
  lemma {:induction false} HeaderNoncePatch(h: WireHeader, nonce: u128)
    ensures Size(HEADER_LAYOUT) == 212
    ensures EncodeHeader(h.(nonce := nonce)) == Patch(EncodeHeader(h), 144, LittleEndian(nonce, 16))
  {
    HeaderSizes();
    PatchField(HEADER_LAYOUT, HeaderFields(h), NONCE_FIELD, nonce, |HEADER_LAYOUT|);
    assert HeaderFields(h.(nonce := nonce)) == HeaderFields(h)[NONCE_FIELD := nonce];
  }

  // Bodies.

  function BodyField(body: WireBody, k: nat): nat
    requires k < BODY_FIELDS
  {
    if k == 0 then body.epochAnchor.first else if k == 1 then body.epochAnchor.second
    else if k == 2 then body.fee
    else if k == 3 then body.inputOwner.first else if k == 4 then body.inputOwner.second
    else if k < 29 then
      var input := body.inputs[(k - 5) / 3];
      if (k - 5) % 3 == 0 then input.slotIndex else if (k - 5) % 3 == 1 then input.amount else input.creationId
    else if k < 37 then
      var output := body.outputs[(k - 29) / 4];
      if (k - 29) % 4 == 0 then output.slotIndex else if (k - 29) % 4 == 1 then output.amount
      else if (k - 29) % 4 == 2 then output.owner.first else output.owner.second
    else if k == 37 then body.validityBitmap
    else if body.isCoinbase then 1 else 0
  }

  function BodyFields(body: WireBody): (fields: seq<nat>)
    ensures Fits(BodyLayout(), fields) && fields[38] <= 1
  {
    WordSizes();
    seq(BODY_FIELDS, k requires 0 <= k < BODY_FIELDS => BodyField(body, k))
  }

  /** What a width says about a field. */
  lemma {:induction false} FieldBound(v: seq<nat>, k: nat)
    requires Fits(BodyLayout(), v) && k < BODY_FIELDS
    ensures v[k] < Pow256(BodyWidth(k))
  {
  }

  function InputOf(v: seq<nat>, i: nat): TxInput
    requires Fits(BodyLayout(), v) && i < TX_INPUTS
  {
    WordSizes();
    FieldBound(v, 5 + 3 * i);
    FieldBound(v, 6 + 3 * i);
    FieldBound(v, 7 + 3 * i);
    TxInput(v[5 + 3 * i], v[6 + 3 * i], v[7 + 3 * i])
  }

  function OutputOf(v: seq<nat>, i: nat): TxOutput
    requires Fits(BodyLayout(), v) && i < TX_OUTPUTS
  {
    WordSizes();
    FieldBound(v, 29 + 4 * i);
    FieldBound(v, 30 + 4 * i);
    FieldBound(v, 31 + 4 * i);
    FieldBound(v, 32 + 4 * i);
    TxOutput(v[29 + 4 * i], v[30 + 4 * i], Word256(v[31 + 4 * i], v[32 + 4 * i]))
  }

  function BodyOf(v: seq<nat>): WireBody
    requires Fits(BodyLayout(), v)
  {
    WordSizes();
    FieldBound(v, 0);
    FieldBound(v, 1);
    FieldBound(v, 2);
    FieldBound(v, 3);
    FieldBound(v, 4);
    FieldBound(v, 37);
    TxBody(Word256(v[0], v[1]), v[2], Word256(v[3], v[4]),
           seq(TX_INPUTS, i requires 0 <= i < TX_INPUTS => InputOf(v, i)),
           seq(TX_OUTPUTS, i requires 0 <= i < TX_OUTPUTS => OutputOf(v, i)),
           v[37], v[38] == 1)
  }

  lemma {:induction false} InputBack(body: WireBody, i: nat)
    requires i < TX_INPUTS
    ensures InputOf(BodyFields(body), i) == body.inputs[i]
  {
    assert (3 * i) / 3 == i && (3 * i + 1) / 3 == i && (3 * i + 2) / 3 == i;
  }

  lemma {:induction false} OutputBack(body: WireBody, i: nat)
    requires i < TX_OUTPUTS
    ensures OutputOf(BodyFields(body), i) == body.outputs[i]
  {
    assert (4 * i) / 4 == i && (4 * i + 1) / 4 == i && (4 * i + 2) / 4 == i && (4 * i + 3) / 4 == i;
  }

  lemma {:induction false} BodyBack(body: WireBody)
    ensures BodyOf(BodyFields(body)) == body
  {
    var back := BodyOf(BodyFields(body));
    forall i | 0 <= i < TX_INPUTS
      ensures back.inputs[i] == body.inputs[i]
    {
      InputBack(body, i);
    }
    forall i | 0 <= i < TX_OUTPUTS
      ensures back.outputs[i] == body.outputs[i]
    {
      OutputBack(body, i);
    }
    assert back.inputs == body.inputs && back.outputs == body.outputs;
  }

  lemma {:induction false} FieldsBack(v: seq<nat>)
    requires Fits(BodyLayout(), v) && v[38] <= 1
    ensures BodyFields(BodyOf(v)) == v
  {
    forall k | 0 <= k < BODY_FIELDS
      ensures BodyField(BodyOf(v), k) == v[k]
    {
      OneFieldBack(v, k);
    }
  }

  lemma {:induction false} OneFieldBack(v: seq<nat>, k: nat)
    requires Fits(BodyLayout(), v) && v[38] <= 1 && k < BODY_FIELDS
    ensures BodyField(BodyOf(v), k) == v[k]
  {
    if 5 <= k < 29 {
      var i := (k - 5) / 3;
      assert k == 5 + 3 * i + (k - 5) % 3;
      assert BodyOf(v).inputs[i] == InputOf(v, i);
    } else if 29 <= k < 37 {
      var i := (k - 29) / 4;
      assert k == 29 + 4 * i + (k - 29) % 4;
      assert BodyOf(v).outputs[i] == OutputOf(v, i);
    }
  }

  function EncodeBody(body: WireBody): (bytes: seq<byte>)
    ensures |bytes| == Size(BodyLayout())
  {
    Encode(BodyLayout(), BodyFields(body))
  }

  lemma {:induction false} InputValues(body: WireBody, i: nat)
    requires i < TX_INPUTS
    ensures var f, input := BodyFields(body), body.inputs[i];
            && f[5 + 3 * i] == input.slotIndex && f[6 + 3 * i] == input.amount && f[7 + 3 * i] == input.creationId
  {
    assert (3 * i) / 3 == i && (3 * i + 1) / 3 == i && (3 * i + 2) / 3 == i;
  }

  lemma {:induction false} OutputValues(body: WireBody, i: nat)
    requires i < TX_OUTPUTS
    ensures var f, output := BodyFields(body), body.outputs[i];
            && f[29 + 4 * i] == output.slotIndex && f[30 + 4 * i] == output.amount
            && f[31 + 4 * i] == output.owner.first && f[32 + 4 * i] == output.owner.second
  {
    assert (4 * i) / 4 == i && (4 * i + 1) / 4 == i && (4 * i + 2) / 4 == i && (4 * i + 3) / 4 == i;
  }

  /** Fields `k`, `k + 1`, ... of a record, from the start of the first and their widths. */
  lemma {:induction false} RunOfFields(layout: Layout, values: seq<nat>, k: nat, start: nat, a: nat, b: nat)
    requires k + 2 < |values| == |layout| && FieldStart(layout, k) == start && layout[k] == a && layout[k + 1] == b
    ensures At(Encode(layout, values), start, a, values[k]) && At(Encode(layout, values), start + a, b, values[k + 1])
    ensures At(Encode(layout, values), start + a + b, layout[k + 2], values[k + 2])
    ensures FieldStart(layout, k + 2) == start + a + b
  {
    assert FieldStart(layout, k + 1) == start + a;
    FieldAt(layout, values, k, start);
    FieldAt(layout, values, k + 1, start + a);
    FieldAt(layout, values, k + 2, start + a + b);
  }

  lemma {:induction false} InputBytes(body: WireBody, i: nat)
    requires i < TX_INPUTS
    ensures var b, input := EncodeBody(body), body.inputs[i];
            && At(b, 72 + 20 * i, 4, input.slotIndex) && At(b, 76 + 20 * i, 8, input.amount)
            && At(b, 84 + 20 * i, 8, input.creationId)
  {
    InputStart(i);
    InputValues(body, i);
    InputWidths(i);
    RunOfFields(BodyLayout(), BodyFields(body), 5 + 3 * i, 72 + 20 * i, 4, 8);
  }

  lemma {:induction false} InputWidths(i: nat)
    requires i < TX_INPUTS
    ensures var layout := BodyLayout(); layout[5 + 3 * i] == 4 && layout[6 + 3 * i] == 8 && layout[7 + 3 * i] == 8
  {
  }

  lemma {:induction false} OutputWidths(i: nat)
    requires i < TX_OUTPUTS
    ensures var layout := BodyLayout();
            && layout[29 + 4 * i] == 4 && layout[30 + 4 * i] == 8 && layout[31 + 4 * i] == layout[32 + 4 * i] == 16
  {
  }

  lemma {:induction false} OutputBytes(body: WireBody, i: nat)
    requires i < TX_OUTPUTS
    ensures var b, output := EncodeBody(body), body.outputs[i];
            && At(b, 232 + 44 * i, 4, output.slotIndex) && At(b, 236 + 44 * i, 8, output.amount)
            && At(b, 244 + 44 * i, 16, output.owner.first) && At(b, 260 + 44 * i, 16, output.owner.second)
  {
    OutputStart(i);
    OutputValues(body, i);
    OutputWidths(i);
    RunOfFields(BodyLayout(), BodyFields(body), 29 + 4 * i, 232 + 44 * i, 4, 8);
    RunOfFields(BodyLayout(), BodyFields(body), 31 + 4 * i, 244 + 44 * i, 16, 16);
  }

  /** The body's bytes, field by field: anchor, fee, owner, eight inputs of twenty bytes, two outputs of
      forty-four, bitmap and coinbase flag. */
  lemma {:induction false} BodyOffsets(body: WireBody)
    ensures var b := EncodeBody(body);
            && At(b, 0, 16, body.epochAnchor.first) && At(b, 16, 16, body.epochAnchor.second) && At(b, 32, 8, body.fee)
            && At(b, 40, 16, body.inputOwner.first) && At(b, 56, 16, body.inputOwner.second)
            && (forall i :: 0 <= i < TX_INPUTS ==>
                  && At(b, 72 + 20 * i, 4, body.inputs[i].slotIndex) && At(b, 76 + 20 * i, 8, body.inputs[i].amount)
                  && At(b, 84 + 20 * i, 8, body.inputs[i].creationId))
            && (forall i :: 0 <= i < TX_OUTPUTS ==>
                  && At(b, 232 + 44 * i, 4, body.outputs[i].slotIndex) && At(b, 236 + 44 * i, 8, body.outputs[i].amount)
                  && At(b, 244 + 44 * i, 16, body.outputs[i].owner.first)
                  && At(b, 260 + 44 * i, 16, body.outputs[i].owner.second))
            && At(b, 320, 2, body.validityBitmap) && At(b, 322, 1, if body.isCoinbase then 1 else 0)
  {
    forall i | 0 <= i < TX_INPUTS
      ensures var b, input := EncodeBody(body), body.inputs[i];
              && At(b, 72 + 20 * i, 4, input.slotIndex) && At(b, 76 + 20 * i, 8, input.amount)
              && At(b, 84 + 20 * i, 8, input.creationId)
    {
      InputBytes(body, i);
    }
    forall i | 0 <= i < TX_OUTPUTS
      ensures var b, output := EncodeBody(body), body.outputs[i];
              && At(b, 232 + 44 * i, 4, output.slotIndex) && At(b, 236 + 44 * i, 8, output.amount)
              && At(b, 244 + 44 * i, 16, output.owner.first) && At(b, 260 + 44 * i, 16, output.owner.second)
    {
      OutputBytes(body, i);
    }
    EndBytes(body);
  }

  lemma {:induction false} EndBytes(body: WireBody)
    ensures var b := EncodeBody(body);
            && At(b, 0, 16, body.epochAnchor.first) && At(b, 16, 16, body.epochAnchor.second) && At(b, 32, 8, body.fee)
            && At(b, 40, 16, body.inputOwner.first) && At(b, 56, 16, body.inputOwner.second)
            && At(b, 320, 2, body.validityBitmap) && At(b, 322, 1, if body.isCoinbase then 1 else 0)
  {
    var layout, f := BodyLayout(), BodyFields(body);
    OutputStart(2);
    assert layout[37] == 2 && layout[38] == 1;
    assert FieldStart(layout, 1) == 16 && FieldStart(layout, 2) == 32;
    assert FieldStart(layout, 3) == 40 && FieldStart(layout, 4) == 56;
    assert FieldStart(layout, 38) == 322;
    FieldAt(layout, f, 0, 0);
    FieldAt(layout, f, 1, 16);
    FieldAt(layout, f, 2, 32);
    FieldAt(layout, f, 3, 40);
    FieldAt(layout, f, 4, 56);
    FieldAt(layout, f, 37, 320);
    FieldAt(layout, f, 38, 322);
  }

  /** The record without any canonicality rule; the flag byte must be zero or one. */
  function DecodeBody(src: seq<byte>): Result<(WireBody, seq<byte>), WireError> {
    if |src| < Size(BodyLayout()) then Err(Truncated)
    else FlaggedBody(Decode(BodyLayout(), src), src[Size(BodyLayout())..])
  }

  function FlaggedBody(v: seq<nat>, rest: seq<byte>): Result<(WireBody, seq<byte>), WireError>
    requires Fits(BodyLayout(), v)
  {
    if v[38] > 1 then Err(InvalidBool) else Ok((BodyOf(v), rest))
  }

  lemma {:induction false} BodyRoundTrip(body: WireBody, rest: seq<byte>)
    ensures DecodeBody(EncodeBody(body) + rest) == Ok((body, rest))
  {
    RecordRoundTrip(BodyLayout(), BodyFields(body), rest);
    BodyBack(body);
  }

  lemma {:induction false} FlaggedBytes(v: seq<nat>, rest: seq<byte>)
    requires Fits(BodyLayout(), v) && FlaggedBody(v, rest).Ok?
    ensures EncodeBody(FlaggedBody(v, rest).value.0) == Encode(BodyLayout(), v)
    ensures FlaggedBody(v, rest).value.1 == rest
  {
    FieldsBack(v);
  }

  lemma {:induction false} SplitBytes(src: seq<byte>, n: nat)
    requires n <= |src|
    ensures src == src[..n] + src[n..]
  {
  }

  lemma {:induction false} BodyCanonical(src: seq<byte>)
    requires DecodeBody(src).Ok?
    ensures src == EncodeBody(DecodeBody(src).value.0) + DecodeBody(src).value.1
  {
    var layout := BodyLayout();
    RecordCanonical(layout, src);
    FlaggedBytes(Decode(layout, src), src[Size(layout)..]);
    SplitBytes(src, Size(layout));
  }

  /** `Transaction::decode`. */
  function DecodeTransaction(src: seq<byte>): Result<(WireBody, seq<byte>), WireError> {
    match DecodeBody(src)
    case Err(error) => Err(error)
    case Ok((body, rest)) => if CanonicalBody(body) then Ok((body, rest)) else Err(NonCanonicalBody)
  }

  /** `TxPage::decode`. */
  function DecodePage(src: seq<byte>): Result<(WireBody, seq<byte>), WireError> {
    match DecodeBody(src)
    case Err(error) => Err(error)
    case Ok((body, rest)) => if PageShape(body) then Ok((body, rest)) else Err(NonCanonicalBody)
  }

  /** The block decoder's record: the coinbase first, then a probe for a system mint, else a page. */
  function DecodeRecord(src: seq<byte>, first: bool): Result<(WireBody, seq<byte>), WireError> {
    var tx := DecodeTransaction(src);
    if first then
      if tx.Err? then tx else if !tx.value.0.isCoinbase then Err(NonCanonicalBody) else tx
    else if tx.Ok? && tx.value.0.isCoinbase then tx
    else DecodePage(src)
  }

  /** A record the encoder writes at that place. */
  predicate Encodable(body: WireBody, first: bool) {
    if body.isCoinbase then CanonicalBody(body) else !first && PageShape(body)
  }

  /** The probe classifies every record the encoder writes: mints as mints, pages as pages. */
  lemma {:induction false} ProbeRoundTrip(body: WireBody, first: bool, rest: seq<byte>)
    requires Encodable(body, first)
    ensures DecodeRecord(EncodeBody(body) + rest, first) == Ok((body, rest))
  {
    BodyRoundTrip(body, rest);
  }

  /** Whatever the probe accepts is an encodable record and the only bytes for it. */
  lemma {:induction false} ProbeCanonical(src: seq<byte>, first: bool)
    requires DecodeRecord(src, first).Ok?
    ensures var (body, rest) := DecodeRecord(src, first).value;
            Encodable(body, first) && src == EncodeBody(body) + rest
  {
    BodyCanonical(src);
    ProbeKeepsBody(src, first);
  }

  lemma {:induction false} ProbeKeepsBody(src: seq<byte>, first: bool)
    requires DecodeRecord(src, first).Ok?
    ensures DecodeBody(src) == DecodeRecord(src, first)
    ensures Encodable(DecodeRecord(src, first).value.0, first)
  {
  }
}
