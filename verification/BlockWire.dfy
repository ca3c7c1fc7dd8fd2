/** The block on the wire: marker, header, count, records, and an optional object section. */
module BlockWire {
  import opened Types
  import opened HeaderHash
  import opened Transactions
  import opened Wire
  import opened RecordWire

  const BLOCK_WIRE_MARKER: byte := 0xB3
  const OBJECTS_MARKER: byte := 0xC1
  const MAX_BLOCK_OBJECTS: nat := 17
  const BLOCK_WIRE_NONCE_OFFSET: nat := 145

  /** The codec of one list element: what it writes, what it reads, what it agrees to write. */
  datatype ElementCodec<!O> = ElementCodec(
    encode: O -> seq<byte>, decode: seq<byte> -> Result<(O, seq<byte>), WireError>, valid: O -> bool)

  /** Valid elements come back, with anything after them; whatever is read is valid and was written. */
  ghost predicate Lawful<O(!new)>(c: ElementCodec<O>) {
    && (forall o, rest :: c.valid(o) ==> c.decode(c.encode(o) + rest) == Ok((o, rest)))
    && (forall src :: c.decode(src).Ok? ==>
          c.valid(c.decode(src).value.0) && src == c.encode(c.decode(src).value.0) + c.decode(src).value.1)
  }

  predicate AllValid<O>(c: ElementCodec<O>, list: seq<O>) {
    forall i :: 0 <= i < |list| ==> c.valid(list[i])
  }

  function EncodeList<O>(c: ElementCodec<O>, list: seq<O>): seq<byte> {
    if |list| == 0 then [] else c.encode(list[0]) + EncodeList(c, list[1..])
  }

  function DecodeList<O>(c: ElementCodec<O>, src: seq<byte>, n: nat): Result<(seq<O>, seq<byte>), WireError>
    decreases n
  {
    if n == 0 then Ok(([], src))
    else match c.decode(src)
      case Err(error) => Err(error)
      case Ok((o, rest)) =>
        match DecodeList(c, rest, n - 1)
        case Err(error) => Err(error)
        case Ok((list, tail)) => Ok(([o] + list, tail))
  }

  lemma {:induction false} ListRoundTrip<O(!new)>(c: ElementCodec<O>, list: seq<O>, rest: seq<byte>)
    requires Lawful(c) && AllValid(c, list)
    ensures DecodeList(c, EncodeList(c, list) + rest, |list|) == Ok((list, rest))
    decreases |list|
  {
    if |list| == 0 {
      assert EncodeList(c, list) + rest == rest;
    } else {
      var tail := EncodeList(c, list[1..]) + rest;
      assert EncodeList(c, list) + rest == c.encode(list[0]) + tail;
      ListRoundTrip(c, list[1..], rest);
      assert list == [list[0]] + list[1..];
    }
  }

  lemma {:induction false} ListCanonical<O(!new)>(c: ElementCodec<O>, src: seq<byte>, n: nat)
    requires Lawful(c) && DecodeList(c, src, n).Ok?
    ensures var (list, rest) := DecodeList(c, src, n).value;
            |list| == n && AllValid(c, list) && src == EncodeList(c, list) + rest
    decreases n
  {
    if n == 0 {
    } else {
      var (o, rest) := c.decode(src).value;
      ListCanonical(c, rest, n - 1);
      var (list, tail) := DecodeList(c, rest, n - 1).value;
      assert ([o] + list)[1..] == list;
      assert c.encode(o) + (EncodeList(c, list) + tail) == c.encode(o) + EncodeList(c, list) + tail;
    }
  }

  // A list whose first element has its own codec.

  predicate HeadedValid<O>(h: ElementCodec<O>, c: ElementCodec<O>, list: seq<O>) {
    |list| > 0 ==> h.valid(list[0]) && AllValid(c, list[1..])
  }

  function EncodeHeaded<O>(h: ElementCodec<O>, c: ElementCodec<O>, list: seq<O>): seq<byte> {
    if |list| == 0 then [] else h.encode(list[0]) + EncodeList(c, list[1..])
  }

  function DecodeHeaded<O>(h: ElementCodec<O>, c: ElementCodec<O>, src: seq<byte>, n: nat)
    : Result<(seq<O>, seq<byte>), WireError>
  {
    if n == 0 then Ok(([], src))
    else match h.decode(src)
      case Err(error) => Err(error)
      case Ok((o, rest)) =>
        match DecodeList(c, rest, n - 1)
        case Err(error) => Err(error)
        case Ok((list, tail)) => Ok(([o] + list, tail))
  }

  lemma {:induction false} HeadedRoundTrip<O(!new)>(h: ElementCodec<O>, c: ElementCodec<O>, list: seq<O>,
                                                    rest: seq<byte>)
    requires Lawful(h) && Lawful(c) && HeadedValid(h, c, list)
    ensures DecodeHeaded(h, c, EncodeHeaded(h, c, list) + rest, |list|) == Ok((list, rest))
  {
    if |list| == 0 {
      assert EncodeHeaded(h, c, list) + rest == rest;
    } else {
      var tail := EncodeList(c, list[1..]) + rest;
      ListRoundTrip(c, list[1..], rest);
      assert EncodeHeaded(h, c, list) + rest == h.encode(list[0]) + tail;
      assert list == [list[0]] + list[1..];
    }
  }

  lemma {:induction false} HeadedCanonical<O(!new)>(h: ElementCodec<O>, c: ElementCodec<O>, src: seq<byte>, n: nat)
    requires Lawful(h) && Lawful(c) && DecodeHeaded(h, c, src, n).Ok?
    ensures var (list, rest) := DecodeHeaded(h, c, src, n).value;
            |list| == n && HeadedValid(h, c, list) && src == EncodeHeaded(h, c, list) + rest
  {
    if n > 0 {
      var (o, rest) := h.decode(src).value;
      ListCanonical(c, rest, n - 1);
      var (list, tail) := DecodeList(c, rest, n - 1).value;
      assert ([o] + list)[1..] == list;
      assert h.encode(o) + (EncodeList(c, list) + tail) == h.encode(o) + EncodeList(c, list) + tail;
    }
  }

  /** The record codec at a place: the coinbase first, then mints and pages told apart by the probe. */
  function RecordCodec(first: bool): ElementCodec<WireBody> {
    ElementCodec((body: WireBody) => EncodeBody(body), (src: seq<byte>) => DecodeRecord(src, first),
                 (body: WireBody) => Encodable(body, first))
  }

  lemma {:induction false} RecordCodecLawful(first: bool)
    ensures Lawful(RecordCodec(first))
  {
    forall body: WireBody, rest: seq<byte> | Encodable(body, first)
      ensures DecodeRecord(EncodeBody(body) + rest, first) == Ok((body, rest))
    {
      ProbeRoundTrip(body, first, rest);
    }
    forall src: seq<byte> | DecodeRecord(src, first).Ok?
      ensures Encodable(DecodeRecord(src, first).value.0, first)
      ensures src == EncodeBody(DecodeRecord(src, first).value.0) + DecodeRecord(src, first).value.1
    {
      ProbeCanonical(src, first);
    }
  }

  datatype WireBlock<O> = WireBlock(header: WireHeader, transactions: seq<WireBody>, objects: seq<O>)

  /** Object codec and the height from which blocks may carry objects. */
  datatype WireRules<!O> = WireRules(codec: ElementCodec<O>, objectsFrom: Option<u64>)

  predicate ObjectsAllowed<O>(rules: WireRules<O>, height: u64) {
    rules.objectsFrom.Some? && height >= rules.objectsFrom.value
  }

  // Stream validity of wire bodies.

  /** Digests on the wire are opaque words; nothing the stream rules read depends on more. */
  function Lift(body: WireBody): Body {
    TxBody(Opaque(body.epochAnchor), body.fee, body.inputOwner, body.inputs, body.outputs, body.validityBitmap,
           body.isCoinbase)
  }

  function LiftAll(txs: seq<WireBody>): seq<Body> {
    seq(|txs|, i requires 0 <= i < |txs| => Lift(txs[i]))
  }

  predicate StreamOk(txs: seq<WireBody>) {
    |txs| > 0 ==> PageStream(LiftAll(txs), V1).Ok?
  }

  // Encoding.

  function EncodeRecords(txs: seq<WireBody>): seq<byte> {
    EncodeHeaded(RecordCodec(true), RecordCodec(false), txs)
  }

  function EncodeSection<O>(c: ElementCodec<O>, objects: seq<O>): seq<byte>
    requires |objects| <= MAX_BLOCK_OBJECTS
  {
    if |objects| == 0 then [] else [OBJECTS_MARKER, |objects|] + EncodeList(c, objects)
  }

  function EncodeTail<O>(c: ElementCodec<O>, block: WireBlock<O>): seq<byte>
    requires |block.objects| <= MAX_BLOCK_OBJECTS
  {
    LittleEndian(|block.transactions|, 4) + (EncodeRecords(block.transactions) + EncodeSection(c, block.objects))
  }

  /** `Block::to_bytes`. */
  function EncodeBlock<O>(c: ElementCodec<O>, block: WireBlock<O>): (bytes: seq<byte>)
    requires |block.objects| <= MAX_BLOCK_OBJECTS
    ensures |bytes| == 1 + Size(HEADER_LAYOUT) + |EncodeTail(c, block)|
  {
    [BLOCK_WIRE_MARKER] + (EncodeHeader(block.header) + EncodeTail(c, block))
  }

  predicate RecordsValid(txs: seq<WireBody>) {
    HeadedValid(RecordCodec(true), RecordCodec(false), txs)
  }

  /** Blocks the encoder accepts: canonical stream, canonical records, objects only when allowed. */
  predicate WireCanonical<O>(rules: WireRules<O>, block: WireBlock<O>) {
    && |block.transactions| <= BLOCK_MAX_TXS && StreamOk(block.transactions)
    && RecordsValid(block.transactions)
    && |block.objects| <= MAX_BLOCK_OBJECTS && AllValid(rules.codec, block.objects)
    && (|block.objects| > 0 ==> ObjectsAllowed(rules, block.header.height))
  }

  lemma {:induction false} GroupPages(pages: seq<TxBody<Digest>>, p: nat)
    requires Groups(pages).Some? && p < |pages|
    ensures PageShape(pages[p])
    decreases |pages|
  {
    var n := FirstGroup(pages).value;
    if p < n {
      assert pages[..n][p] == pages[p];
    } else {
      GroupPages(pages[n..], p - n);
    }
  }

  /** A valid stream with canonical system records is always encodable: the page encoder's own
      checks can never fail inside the block encoder. */
  lemma {:induction false} StreamIsEncodable(txs: seq<WireBody>)
    requires StreamOk(txs) && |txs| > 0
    requires forall i :: 0 <= i < UserStart(LiftAll(txs)) && i < |txs| ==> CanonicalBody(txs[i])
    ensures RecordsValid(txs)
  {
    var lifted := LiftAll(txs);
    PayoutErrorUnreachable(lifted, V1);
    var cut := UserStart(lifted);
    forall i | 0 < i < |txs|
      ensures Encodable(txs[i], false)
    {
      if i >= cut {
        PageIsEncodable(txs, i);
      }
    }
    assert lifted[0] == Lift(txs[0]);
  }

  lemma {:induction false} PageIsEncodable(txs: seq<WireBody>, i: nat)
    requires StreamOk(txs) && |txs| > 0 && UserStart(LiftAll(txs)) <= i < |txs|
    ensures PageShape(txs[i]) && !txs[i].isCoinbase
  {
    var lifted, cut := LiftAll(txs), UserStart(LiftAll(txs));
    GroupPages(lifted[cut..], i - cut);
    assert lifted[cut..][i - cut] == Lift(txs[i]);
    LiftKeepsShape(txs[i]);
  }

  lemma {:induction false} LiftKeepsShape(body: WireBody)
    requires PageShape(Lift(body))
    ensures PageShape(body)
  {
    assert forall i :: InputIsLive(body, i) == InputIsLive(Lift(body), i);
    assert forall i :: OutputIsLive(body, i) == OutputIsLive(Lift(body), i);
  }

  // Decoding.

  function DecodeRecords(src: seq<byte>, n: nat): Result<(seq<WireBody>, seq<byte>), WireError> {
    DecodeHeaded(RecordCodec(true), RecordCodec(false), src, n)
  }

  /** `decode_client_objects_section`, entered on its marker: a counted list and nothing after. */
  function DecodeSection<O>(c: ElementCodec<O>, src: seq<byte>): Result<seq<O>, WireError>
    requires |src| > 0
  {
    if |src| < 2 then Err(Truncated)
    else if src[1] == 0 || src[1] > MAX_BLOCK_OBJECTS then Err(LengthOverflow)
    else match DecodeList(c, src[2..], src[1])
      case Err(error) => Err(error)
      case Ok((objects, tail)) => if |tail| > 0 then Err(TrailingBytes) else Ok(objects)
  }

  function DecodeTail<O>(rules: WireRules<O>, header: WireHeader, src: seq<byte>)
    : Result<(WireBlock<O>, seq<byte>), WireError>
  {
    if |src| < 4 then Err(Truncated)
    else
      var n := FromLittleEndian(src[..4]);
      if n > BLOCK_MAX_TXS then Err(LengthOverflow)
      else match DecodeRecords(src[4..], n)
        case Err(error) => Err(error)
        case Ok((txs, rest)) =>
          if !StreamOk(txs) then Err(NonCanonicalBody)
          else if ObjectsAllowed(rules, header.height) && |rest| > 0 && rest[0] == OBJECTS_MARKER then
            match DecodeSection(rules.codec, rest)
            case Err(error) => Err(error)
            case Ok(objects) => Ok((WireBlock(header, txs, objects), []))
          else Ok((WireBlock(header, txs, []), rest))
  }

  /** `Block::decode`. */
  function DecodeBlock<O>(rules: WireRules<O>, src: seq<byte>): Result<(WireBlock<O>, seq<byte>), WireError> {
    if |src| == 0 then Err(Truncated)
    else if src[0] != BLOCK_WIRE_MARKER then Err(BadMarker)
    else match DecodeHeader(src[1..])
      case Err(error) => Err(error)
      case Ok((header, rest)) => DecodeTail(rules, header, rest)
  }

  /** `Block::from_bytes`. */
  function FromBytes<O>(rules: WireRules<O>, bytes: seq<byte>): Result<WireBlock<O>, WireError> {
    match DecodeBlock(rules, bytes)
    case Err(error) => Err(error)
    case Ok((block, rest)) => if |rest| > 0 then Err(TrailingBytes) else Ok(block)
  }

  // Round trips.

  lemma {:induction false} RecordsRoundTrip(txs: seq<WireBody>, rest: seq<byte>)
    requires RecordsValid(txs)
    ensures DecodeRecords(EncodeRecords(txs) + rest, |txs|) == Ok((txs, rest))
  {
    RecordCodecLawful(true);
    RecordCodecLawful(false);
    HeadedRoundTrip(RecordCodec(true), RecordCodec(false), txs, rest);
  }

  lemma {:induction false} RecordsCanonical(src: seq<byte>, n: nat)
    requires DecodeRecords(src, n).Ok?
    ensures var (txs, rest) := DecodeRecords(src, n).value;
            |txs| == n && RecordsValid(txs) && src == EncodeRecords(txs) + rest
  {
    RecordCodecLawful(true);
    RecordCodecLawful(false);
    HeadedCanonical(RecordCodec(true), RecordCodec(false), src, n);
  }

  lemma {:induction false} SectionRoundTrip<O(!new)>(c: ElementCodec<O>, objects: seq<O>)
    requires Lawful(c) && 0 < |objects| <= MAX_BLOCK_OBJECTS && AllValid(c, objects)
    ensures var section := EncodeSection(c, objects);
            |section| > 0 && section[0] == OBJECTS_MARKER && DecodeSection(c, section) == Ok(objects)
  {
    ListRoundTrip(c, objects, []);
    var section := EncodeSection(c, objects);
    assert section[2..] == EncodeList(c, objects) + [];
  }

  lemma {:induction false} SectionCanonical<O(!new)>(c: ElementCodec<O>, src: seq<byte>)
    requires Lawful(c) && |src| > 0 && src[0] == OBJECTS_MARKER && DecodeSection(c, src).Ok?
    ensures var objects := DecodeSection(c, src).value;
            0 < |objects| <= MAX_BLOCK_OBJECTS && AllValid(c, objects) && EncodeSection(c, objects) == src
  {
    ListCanonical(c, src[2..], src[1]);
    var (objects, tail) := DecodeList(c, src[2..], src[1]).value;
    assert src == [src[0], src[1]] + src[2..];
    assert EncodeList(c, objects) + tail == EncodeList(c, objects);
  }

  lemma {:induction false} CountRoundTrip(n: nat)
    requires n <= BLOCK_MAX_TXS
    ensures FromLittleEndian(LittleEndian(n, 4)) == n
  {
    WordSizes();
    NumberRoundTrip(n, 4);
  }

  lemma {:induction false} TailRoundTrip<O(!new)>(rules: WireRules<O>, block: WireBlock<O>)
    requires Lawful(rules.codec) && WireCanonical(rules, block)
    ensures DecodeTail(rules, block.header, EncodeTail(rules.codec, block)) == Ok((block, []))
  {
    var txs, section := block.transactions, EncodeSection(rules.codec, block.objects);
    var src := EncodeTail(rules.codec, block);
    CountRoundTrip(|txs|);
    assert src[..4] == LittleEndian(|txs|, 4) && src[4..] == EncodeRecords(txs) + section;
    RecordsRoundTrip(txs, section);
    if |block.objects| > 0 {
      SectionRoundTrip(rules.codec, block.objects);
    }
  }

  /** Every canonical block decodes from its own bytes to itself. */
  lemma {:induction false} BlockRoundTrip<O(!new)>(rules: WireRules<O>, block: WireBlock<O>)
    requires Lawful(rules.codec) && WireCanonical(rules, block)
    ensures FromBytes(rules, EncodeBlock(rules.codec, block)) == Ok(block)
  {
    var bytes, tail := EncodeBlock(rules.codec, block), EncodeTail(rules.codec, block);
    assert bytes[1..] == EncodeHeader(block.header) + tail;
    HeaderRoundTrip(block.header, tail);
    TailRoundTrip(rules, block);
  }

  lemma {:induction false} TailCanonical<O(!new)>(rules: WireRules<O>, header: WireHeader, src: seq<byte>)
    requires Lawful(rules.codec) && DecodeTail(rules, header, src).Ok? && DecodeTail(rules, header, src).value.1 == []
    ensures var block := DecodeTail(rules, header, src).value.0;
            WireCanonical(rules, block) && block.header == header && src == EncodeTail(rules.codec, block)
  {
    var n := FromLittleEndian(src[..4]);
    RecordsCanonical(src[4..], n);
    var (txs, rest) := DecodeRecords(src[4..], n).value;
    BytesRoundTrip(src[..4]);
    assert src == src[..4] + src[4..];
    if ObjectsAllowed(rules, header.height) && |rest| > 0 && rest[0] == OBJECTS_MARKER {
      SectionCanonical(rules.codec, rest);
    }
  }

  lemma {:induction false} AcceptedParts<O(!new)>(rules: WireRules<O>, bytes: seq<byte>)
    requires FromBytes(rules, bytes).Ok?
    ensures |bytes| > 0 && bytes[0] == BLOCK_WIRE_MARKER && DecodeHeader(bytes[1..]).Ok?
    ensures var (header, rest) := DecodeHeader(bytes[1..]).value;
            DecodeTail(rules, header, rest) == Ok((FromBytes(rules, bytes).value, []))
  {
  }

  lemma {:induction false} AssembleBlock<O(!new)>(c: ElementCodec<O>, block: WireBlock<O>, bytes: seq<byte>,
                                                  tail: seq<byte>)
    requires |block.objects| <= MAX_BLOCK_OBJECTS && |bytes| > 0 && bytes[0] == BLOCK_WIRE_MARKER
    requires bytes[1..] == EncodeHeader(block.header) + tail && tail == EncodeTail(c, block)
    ensures EncodeBlock(c, block) == bytes
  {
    assert bytes == [bytes[0]] + bytes[1..];
  }

  /** Any accepted byte string is the encoding of the block it decodes to. */
  lemma {:induction false} BlockBytesCanonical<O(!new)>(rules: WireRules<O>, bytes: seq<byte>)
    requires Lawful(rules.codec) && FromBytes(rules, bytes).Ok?
    ensures WireCanonical(rules, FromBytes(rules, bytes).value)
    ensures EncodeBlock(rules.codec, FromBytes(rules, bytes).value) == bytes
  {
    AcceptedParts(rules, bytes);
    HeaderCanonical(bytes[1..]);
    var (header, rest) := DecodeHeader(bytes[1..]).value;
    TailCanonical(rules, header, rest);
    AssembleBlock(rules.codec, FromBytes(rules, bytes).value, bytes, rest);
  }

  // Length.

  function ObjectsLength<O>(c: ElementCodec<O>, objects: seq<O>): nat {
    if |objects| == 0 then 0 else |c.encode(objects[0])| + ObjectsLength(c, objects[1..])
  }

  /** `Block::canonical_wire_len`, from the counts alone. */
  function CanonicalWireLen<O>(c: ElementCodec<O>, block: WireBlock<O>): Result<nat, WireError> {
    if |block.objects| > MAX_BLOCK_OBJECTS || |block.transactions| > BLOCK_MAX_TXS then Err(LengthOverflow)
    else Ok(1 + 212 + 4 + 323 * |block.transactions|
            + if |block.objects| == 0 then 0 else 2 + ObjectsLength(c, block.objects))
  }

  lemma {:induction false} ListLength(txs: seq<WireBody>)
    ensures |EncodeList(RecordCodec(false), txs)| == 323 * |txs|
  {
    BodySize();
    if |txs| == 0 {
    } else {
      ListLength(txs[1..]);
    }
  }

  lemma {:induction false} RecordsLength(txs: seq<WireBody>)
    ensures |EncodeRecords(txs)| == 323 * |txs|
  {
    BodySize();
    if |txs| > 0 {
      ListLength(txs[1..]);
    }
  }

  lemma {:induction false} EncodedObjectsLength<O(!new)>(c: ElementCodec<O>, objects: seq<O>)
    ensures |EncodeList(c, objects)| == ObjectsLength(c, objects)
  {
    if |objects| == 0 {
    } else {
      EncodedObjectsLength(c, objects[1..]);
    }
  }

  lemma {:induction false} TailLength<O(!new)>(c: ElementCodec<O>, block: WireBlock<O>)
    requires |block.objects| <= MAX_BLOCK_OBJECTS
    ensures |EncodeTail(c, block)|
         == 4 + 323 * |block.transactions| + if |block.objects| == 0 then 0 else 2 + ObjectsLength(c, block.objects)
  {
    RecordsLength(block.transactions);
    EncodedObjectsLength(c, block.objects);
  }

  /** The length formula is the length of the encoding. */
  lemma {:induction false} WireLengthExact<O(!new)>(c: ElementCodec<O>, block: WireBlock<O>)
    requires |block.objects| <= MAX_BLOCK_OBJECTS && |block.transactions| <= BLOCK_MAX_TXS
    ensures CanonicalWireLen(c, block) == Ok(|EncodeBlock(c, block)|)
  {
    HeaderSizes();
    TailLength(c, block);
  }

  function Bodies(txs: seq<WireBody>): seq<seq<byte>> {
    seq(|txs|, k requires 0 <= k < |txs| => EncodeBody(txs[k]))
  }

  lemma {:induction false} ListIsFlat(txs: seq<WireBody>)
    ensures EncodeList(RecordCodec(false), txs) == Flatten(Bodies(txs))
  {
    if |txs| == 0 {
    } else {
      ListIsFlat(txs[1..]);
      assert Bodies(txs)[1..] == Bodies(txs[1..]);
    }
  }

  lemma {:induction false} RecordsAreFlat(txs: seq<WireBody>)
    ensures EncodeRecords(txs) == Flatten(Bodies(txs))
  {
    if |txs| > 0 {
      ListIsFlat(txs[1..]);
      assert Bodies(txs)[1..] == Bodies(txs[1..]);
    }
  }

  /** Piece `k` of a concatenation of 323-byte pieces. */
  lemma {:induction false} PieceAt(pieces: seq<seq<byte>>, k: nat)
    requires k < |pieces| && forall i :: 0 <= i < |pieces| ==> |pieces[i]| == 323
    ensures 323 * k + 323 <= |Flatten(pieces)| && Flatten(pieces)[323 * k..323 * k + 323] == pieces[k]
  {
    var rest := Flatten(pieces[1..]);
    if k == 0 {
      assert (pieces[0] + rest)[0..323] == pieces[0];
    } else {
      PieceAt(pieces[1..], k - 1);
      var a := 323 * (k - 1);
      assert (pieces[0] + rest)[323 + a..323 + a + 323] == rest[a..a + 323];
    }
  }

  lemma {:induction false} Pieces(a: seq<byte>, b: seq<byte>, c: seq<byte>, d: seq<byte>, e: seq<byte>)
    requires |a| == 1 && |b| == 212 && |c| == 4
    ensures var all := a + (b + (c + (d + e)));
            && all[0] == a[0] && all[1..213] == b && all[213..217] == c && all[217..217 + |d|] == d
            && all[217 + |d|..] == e && |all| == 217 + |d| + |e|
  {
  }

  lemma {:induction false} SliceOfSlice(all: seq<byte>, start: nat, part: seq<byte>, x: nat, y: nat)
    requires start + |part| <= |all| && all[start..start + |part|] == part && x <= y <= |part|
    ensures all[start + x..start + y] == part[x..y]
  {
    forall i | 0 <= i < y - x
      ensures all[start + x..start + y][i] == part[x..y][i]
    {
      assert all[start..start + |part|][x + i] == all[start + x + i];
    }
  }

  /** The block's bytes: the marker, the header, the count of records, then every record in its place and
      the object section, itself a marker and a count, at the end. */
  lemma {:induction false} BlockOffsets<O(!new)>(c: ElementCodec<O>, block: WireBlock<O>)
    requires |block.objects| <= MAX_BLOCK_OBJECTS
    ensures var b, n := EncodeBlock(c, block), |block.transactions|;
            && |b| >= 217 + 323 * n && b[0] == 0xB3 && b[1..213] == EncodeHeader(block.header) && At(b, 213, 4, n)
            && (forall k :: 0 <= k < n ==> b[217 + 323 * k..217 + 323 * k + 323] == EncodeBody(block.transactions[k]))
            && b[217 + 323 * n..] == (if |block.objects| == 0 then []
                                      else [0xC1, |block.objects|] + EncodeList(c, block.objects))
  {
    HeaderSizes();
    var txs, b := block.transactions, EncodeBlock(c, block);
    RecordsLength(txs);
    Pieces([BLOCK_WIRE_MARKER], EncodeHeader(block.header), LittleEndian(|txs|, 4), EncodeRecords(txs),
           EncodeSection(c, block.objects));
    BodySize();
    RecordsAreFlat(txs);
    RecordsAt(b, Bodies(txs));
  }

  lemma {:induction false} RecordsAt(b: seq<byte>, pieces: seq<seq<byte>>)
    requires forall i :: 0 <= i < |pieces| ==> |pieces[i]| == 323
    requires 217 + |Flatten(pieces)| <= |b| && b[217..217 + |Flatten(pieces)|] == Flatten(pieces)
    ensures forall k :: 0 <= k < |pieces| ==>
              217 + 323 * k + 323 <= |b| && b[217 + 323 * k..217 + 323 * k + 323] == pieces[k]
  {
    forall k | 0 <= k < |pieces|
      ensures 217 + 323 * k + 323 <= |b| && b[217 + 323 * k..217 + 323 * k + 323] == pieces[k]
    {
      PieceAt(pieces, k);
      SliceOfSlice(b, 217, Flatten(pieces), 323 * k, 323 * k + 323);
    }
  }

  /** A block that carries objects decodes to itself from the activation height on; below it, or with no
      activation, the section is trailing bytes. */
  lemma {:induction false} ObjectsFromActivation<O(!new)>(rules: WireRules<O>, block: WireBlock<O>)
    requires Lawful(rules.codec) && WireCanonical(rules, block.(objects := []))
    requires 0 < |block.objects| <= MAX_BLOCK_OBJECTS && AllValid(rules.codec, block.objects)
    ensures FromBytes(rules, EncodeBlock(rules.codec, block)) ==
            if rules.objectsFrom.Some? && block.header.height >= rules.objectsFrom.value then Ok(block)
            else Err(TrailingBytes)
  {
    if ObjectsAllowed(rules, block.header.height) {
      BlockRoundTrip(rules, block);
    } else {
      var bytes, tail := EncodeBlock(rules.codec, block), EncodeTail(rules.codec, block);
      assert bytes[1..] == EncodeHeader(block.header) + tail;
      HeaderRoundTrip(block.header, tail);
      TailWithoutObjects(rules, block);
    }
  }

  lemma {:induction false} TailWithoutObjects<O(!new)>(rules: WireRules<O>, block: WireBlock<O>)
    requires WireCanonical(rules, block.(objects := [])) && 0 < |block.objects| <= MAX_BLOCK_OBJECTS
    requires !ObjectsAllowed(rules, block.header.height)
    ensures var section := EncodeSection(rules.codec, block.objects);
            && DecodeTail(rules, block.header, EncodeTail(rules.codec, block)) == Ok((block.(objects := []), section))
            && |section| > 0
  {
    var txs, section := block.transactions, EncodeSection(rules.codec, block.objects);
    var src := EncodeTail(rules.codec, block);
    CountRoundTrip(|txs|);
    assert src[..4] == LittleEndian(|txs|, 4) && src[4..] == EncodeRecords(txs) + section;
    RecordsRoundTrip(txs, section);
  }

  // Nonce patching.

  function WithNonce<O>(block: WireBlock<O>, nonce: u128): WireBlock<O> {
    block.(header := block.header.(nonce := nonce))
  }

  lemma {:induction false} PatchInside(front: seq<byte>, middle: seq<byte>, tail: seq<byte>, at: nat, with: seq<byte>)
    requires at + |with| <= |middle|
    ensures Patch(front + (middle + tail), |front| + at, with) == front + (Patch(middle, at, with) + tail)
  {
  }

  /** Overwriting 16 bytes at the block nonce offset is encoding the block with that nonce. */
  lemma {:induction false} NoncePatch<O(!new)>(c: ElementCodec<O>, block: WireBlock<O>, nonce: u128)
    requires |block.objects| <= MAX_BLOCK_OBJECTS
    ensures BLOCK_WIRE_NONCE_OFFSET + 16 <= |EncodeBlock(c, block)|
    ensures Patch(EncodeBlock(c, block), BLOCK_WIRE_NONCE_OFFSET, LittleEndian(nonce, 16))
         == EncodeBlock(c, WithNonce(block, nonce))
  {
    HeaderNoncePatch(block.header, nonce);
    PatchInside([BLOCK_WIRE_MARKER], EncodeHeader(block.header), EncodeTail(c, block), 144, LittleEndian(nonce, 16));
  }

  /** Canonicality does not look at the nonce. */
  lemma {:induction false} NonceKeepsCanonical<O(!new)>(rules: WireRules<O>, block: WireBlock<O>, nonce: u128)
    requires WireCanonical(rules, block)
    ensures WireCanonical(rules, WithNonce(block, nonce))
  {
  }

  // Header ids.

  function LiftHeader(h: WireHeader): Header {
    BlockHeader(Opaque(h.prevBlockHash), Opaque(h.stateRoot), Opaque(h.txRoot), h.timestamp, h.height, h.minerAddress,
                h.nonce, h.difficultyTarget, h.logSlots, h.activeSlotCount, h.allocCounter)
  }

  /** For headers read off the wire: the semantic id ignores the nonce and nothing else, the block id
      separates every two headers, and an id of one kind is never one of the other. */
  lemma {:induction false} IdsAndNonce(a: WireHeader, b: WireHeader)
    ensures SemanticHeaderId(LiftHeader(a)) == SemanticHeaderId(LiftHeader(b)) <==> a.(nonce := 0) == b.(nonce := 0)
    ensures HashBlockHeader(LiftHeader(a)) == HashBlockHeader(LiftHeader(b)) <==> a == b
    ensures HashBlockHeader(LiftHeader(a)) != SemanticHeaderId(LiftHeader(b))
  {
    SemanticIdBindsTemplate(LiftHeader(a), LiftHeader(b));
    BlockIdBindsHeader(LiftHeader(a), LiftHeader(b));
    DomainsApart(LiftHeader(a), LiftHeader(b), []);
  }
}
