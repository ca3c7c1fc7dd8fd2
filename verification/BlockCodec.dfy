/** The codecs as the code runs them: a buffer that grows and a cursor that advances. */
module BlockCodec {
  import opened Types
  import opened Transactions
  import opened Wire
  import opened RecordWire
  import opened BlockWire
  import opened AcceptedBlockBundle

  method EncodeHeaderTo(buf: WireBuffer, header: WireHeader)
    modifies buf
    ensures buf.bytes == old(buf.bytes) + EncodeHeader(header)
  {
    buf.PutRecord(HEADER_LAYOUT, HeaderFields(header));
  }

  lemma {:induction false} EncodeListSnoc<O(!new)>(c: ElementCodec<O>, list: seq<O>, k: nat)
    requires k < |list|
    ensures EncodeList(c, list[..k + 1]) == EncodeList(c, list[..k]) + c.encode(list[k])
  {
    if k == 0 {
      assert list[..1][1..] == [] && list[..0] == [];
      assert EncodeList(c, list[..1]) == c.encode(list[0]) + [];
    } else {
      EncodeListSnoc(c, list[1..], k - 1);
      assert list[..k + 1][1..] == list[1..][..k] && list[..k][1..] == list[1..][..k - 1];
      assert c.encode(list[0]) + (EncodeList(c, list[1..][..k - 1]) + c.encode(list[k]))
          == c.encode(list[0]) + EncodeList(c, list[1..][..k - 1]) + c.encode(list[k]);
    }
  }

  /** Append a list, element by element. */
  method EncodeListTo<O(!new)>(buf: WireBuffer, c: ElementCodec<O>, list: seq<O>)
    modifies buf
    ensures buf.bytes == old(buf.bytes) + EncodeList(c, list)
  {
    for k := 0 to |list|
      invariant buf.bytes == old(buf.bytes) + EncodeList(c, list[..k])
    {
      EncodeListSnoc(c, list, k);
      buf.bytes := buf.bytes + c.encode(list[k]);
    }
    assert list[..|list|] == list;
  }

  method EncodeHeadedTo<O(!new)>(buf: WireBuffer, h: ElementCodec<O>, c: ElementCodec<O>, list: seq<O>)
    modifies buf
    ensures buf.bytes == old(buf.bytes) + EncodeHeaded(h, c, list)
  {
    if |list| > 0 {
      buf.bytes := buf.bytes + h.encode(list[0]);
      EncodeListTo(buf, c, list[1..]);
      assert old(buf.bytes) + h.encode(list[0]) + EncodeList(c, list[1..])
          == old(buf.bytes) + (h.encode(list[0]) + EncodeList(c, list[1..]));
    }
  }

  /** The coinbase, then every later record. */
  method EncodeRecordsTo(buf: WireBuffer, txs: seq<WireBody>)
    modifies buf
    ensures buf.bytes == old(buf.bytes) + EncodeRecords(txs)
  {
    EncodeHeadedTo(buf, RecordCodec(true), RecordCodec(false), txs);
  }

  method EncodeSectionTo<O(!new)>(buf: WireBuffer, c: ElementCodec<O>, objects: seq<O>)
    requires |objects| <= MAX_BLOCK_OBJECTS
    modifies buf
    ensures buf.bytes == old(buf.bytes) + EncodeSection(c, objects)
  {
    if |objects| > 0 {
      buf.bytes := buf.bytes + [OBJECTS_MARKER, |objects|];
      EncodeListTo(buf, c, objects);
      assert old(buf.bytes) + [OBJECTS_MARKER, |objects|] + EncodeList(c, objects)
          == old(buf.bytes) + ([OBJECTS_MARKER, |objects|] + EncodeList(c, objects));
    }
  }

  /** `Block::encode`. */
  method EncodeBlockTo<O(!new)>(buf: WireBuffer, c: ElementCodec<O>, block: WireBlock<O>)
    requires |block.objects| <= MAX_BLOCK_OBJECTS
    modifies buf
    ensures buf.bytes == old(buf.bytes) + EncodeBlock(c, block)
  {
    ghost var start, header := buf.bytes, EncodeHeader(block.header);
    ghost var count, records := LittleEndian(|block.transactions|, 4), EncodeRecords(block.transactions);
    buf.bytes := buf.bytes + [BLOCK_WIRE_MARKER];
    EncodeHeaderTo(buf, block.header);
    buf.Put(|block.transactions|, 4);
    EncodeRecordsTo(buf, block.transactions);
    EncodeSectionTo(buf, c, block.objects);
    FivePieces(start, [BLOCK_WIRE_MARKER], header, count, records, EncodeSection(c, block.objects));
  }

  lemma {:induction false} FivePieces(start: seq<byte>, a: seq<byte>, b: seq<byte>, c: seq<byte>, d: seq<byte>,
                                      e: seq<byte>)
    ensures start + a + b + c + d + e == start + (a + (b + (c + (d + e))))
  {
    assert a + (b + (c + (d + e))) == a + b + c + d + e;
  }

  // Decoding.

  method DecodeHeaderFrom(cur: WireCursor) returns (r: Result<WireHeader, WireError>)
    modifies cur
    ensures r.Ok? <==> DecodeHeader(old(cur.src)).Ok?
    ensures r.Ok? ==> DecodeHeader(old(cur.src)) == Ok((r.value, cur.src))
    ensures r.Err? ==> DecodeHeader(old(cur.src)) == Err(r.error)
  {
    var fields := cur.TakeRecord(HEADER_LAYOUT);
    if fields.Err? {
      return Err(fields.error);
    }
    r := Ok(HeaderOf(fields.value));
  }

  method DecodeBodyFrom(cur: WireCursor) returns (r: Result<WireBody, WireError>)
    modifies cur
    ensures r.Ok? ==> DecodeBody(old(cur.src)) == Ok((r.value, cur.src))
    ensures r.Err? ==> DecodeBody(old(cur.src)) == Err(r.error)
  {
    var fields := cur.TakeRecord(BodyLayout());
    if fields.Err? {
      return Err(fields.error);
    }
    if fields.value[38] > 1 {
      return Err(InvalidBool);
    }
    r := Ok(BodyOf(fields.value));
  }

  method DecodeTransactionFrom(cur: WireCursor) returns (r: Result<WireBody, WireError>)
    modifies cur
    ensures r.Ok? ==> DecodeTransaction(old(cur.src)) == Ok((r.value, cur.src))
    ensures r.Err? ==> DecodeTransaction(old(cur.src)) == Err(r.error)
  {
    r := DecodeBodyFrom(cur);
    if r.Ok? && !CanonicalBody(r.value) {
      r := Err(NonCanonicalBody);
    }
  }

  /** One record; for later records a probe copies the cursor and is kept only for a system mint. */
  method DecodeRecordFrom(cur: WireCursor, first: bool) returns (r: Result<WireBody, WireError>)
    modifies cur
    ensures r.Ok? ==> DecodeRecord(old(cur.src), first) == Ok((r.value, cur.src))
    ensures r.Err? ==> DecodeRecord(old(cur.src), first) == Err(r.error)
  {
    if first {
      r := DecodeTransactionFrom(cur);
      if r.Ok? && !r.value.isCoinbase {
        r := Err(NonCanonicalBody);
      }
      return;
    }
    var probe := new WireCursor(cur.src);
    var system := DecodeTransactionFrom(probe);
    if system.Ok? && system.value.isCoinbase {
      cur.src := probe.src;
      return system;
    }
    r := DecodeBodyFrom(cur);
    if r.Ok? && !PageShape(r.value) {
      r := Err(NonCanonicalBody);
    }
  }

  lemma {:induction false} DecodeListSnoc<O(!new)>(c: ElementCodec<O>, src: seq<byte>, k: nat)
    ensures DecodeList(c, src, k).Ok? ==>
              DecodeList(c, src, k + 1)
              == match c.decode(DecodeList(c, src, k).value.1)
                 case Err(error) => Err(error)
                 case Ok((o, tail)) => Ok((DecodeList(c, src, k).value.0 + [o], tail))
    ensures DecodeList(c, src, k).Err? ==> DecodeList(c, src, k + 1) == DecodeList(c, src, k)
    decreases k
  {
    match c.decode(src)
    case Err(_) =>
    case Ok((o, rest)) =>
      if k == 0 {
        assert DecodeList(c, rest, 0) == Ok(([], rest));
        assert [o] + [] == [] + [o];
      } else {
        DecodeListSnoc(c, rest, k - 1);
        if DecodeList(c, rest, k - 1).Ok? {
          var list := DecodeList(c, rest, k - 1).value.0;
          match c.decode(DecodeList(c, rest, k - 1).value.1)
          case Err(_) =>
          case Ok((last, _)) => assert [o] + (list + [last]) == [o] + list + [last];
        }
      }
  }

  lemma {:induction false} ListErrorStays<O(!new)>(c: ElementCodec<O>, src: seq<byte>, k: nat, n: nat)
    requires k <= n && DecodeList(c, src, k).Err?
    ensures DecodeList(c, src, n) == DecodeList(c, src, k)
    decreases n - k
  {
    if k >= n {
    } else {
      DecodeListSnoc(c, src, k);
      ListErrorStays(c, src, k + 1, n);
    }
  }

  /** Read a list, one element after another. */
  method DecodeListFrom<O(!new)>(cur: WireCursor, c: ElementCodec<O>, n: nat) returns (r: Result<seq<O>, WireError>)
    modifies cur
    ensures r.Ok? ==> DecodeList(c, old(cur.src), n) == Ok((r.value, cur.src))
    ensures r.Err? ==> DecodeList(c, old(cur.src), n) == Err(r.error)
  {
    var list: seq<O> := [];
    ghost var src := cur.src;
    for k := 0 to n
      invariant DecodeList(c, src, k) == Ok((list, cur.src))
    {
      DecodeListSnoc(c, src, k);
      var element := c.decode(cur.src);
      if element.Err? {
        ListErrorStays(c, src, k + 1, n);
        return Err(element.error);
      }
      list := list + [element.value.0];
      cur.src := element.value.1;
    }
    r := Ok(list);
  }

  method DecodeHeadedFrom<O(!new)>(cur: WireCursor, h: ElementCodec<O>, c: ElementCodec<O>, n: nat)
    returns (r: Result<seq<O>, WireError>)
    modifies cur
    ensures r.Ok? ==> DecodeHeaded(h, c, old(cur.src), n) == Ok((r.value, cur.src))
    ensures r.Err? ==> DecodeHeaded(h, c, old(cur.src), n) == Err(r.error)
  {
    if n == 0 {
      return Ok([]);
    }
    var head := h.decode(cur.src);
    if head.Err? {
      return Err(head.error);
    }
    cur.src := head.value.1;
    var tail := DecodeListFrom(cur, c, n - 1);
    if tail.Err? {
      return Err(tail.error);
    }
    r := Ok([head.value.0] + tail.value);
  }

  /** `Block::decode`. */
  method DecodeBlockFrom<O(!new)>(rules: WireRules<O>, cur: WireCursor) returns (r: Result<WireBlock<O>, WireError>)
    modifies cur
    ensures r.Ok? ==> DecodeBlock(rules, old(cur.src)) == Ok((r.value, cur.src))
    ensures r.Err? ==> DecodeBlock(rules, old(cur.src)) == Err(r.error)
  {
    var marker := cur.Take(1);
    if marker.Err? {
      return Err(marker.error);
    }
    if marker.value[0] != BLOCK_WIRE_MARKER {
      return Err(BadMarker);
    }
    var header := DecodeHeaderFrom(cur);
    if header.Err? {
      return Err(header.error);
    }
    r := DecodeTailFrom(rules, header.value, cur);
  }

  method DecodeTailFrom<O(!new)>(rules: WireRules<O>, header: WireHeader, cur: WireCursor)
    returns (r: Result<WireBlock<O>, WireError>)
    modifies cur
    ensures r.Ok? ==> DecodeTail(rules, header, old(cur.src)) == Ok((r.value, cur.src))
    ensures r.Err? ==> DecodeTail(rules, header, old(cur.src)) == Err(r.error)
  {
    var count := cur.Take(4);
    if count.Err? {
      return Err(count.error);
    }
    var n := FromLittleEndian(count.value);
    if n > BLOCK_MAX_TXS {
      return Err(LengthOverflow);
    }
    var txs := DecodeHeadedFrom(cur, RecordCodec(true), RecordCodec(false), n);
    if txs.Err? {
      return Err(txs.error);
    }
    if !StreamOk(txs.value) {
      return Err(NonCanonicalBody);
    }
    if ObjectsAllowed(rules, header.height) && |cur.src| > 0 && cur.src[0] == OBJECTS_MARKER {
      var objects := DecodeSection(rules.codec, cur.src);
      if objects.Err? {
        return Err(objects.error);
      }
      cur.src := [];
      return Ok(WireBlock(header, txs.value, objects.value));
    }
    r := Ok(WireBlock(header, txs.value, []));
  }

  /** `AcceptedBlockBundle::encode`. */
  method EncodeBundleBytes(b: Bundle) returns (bytes: seq<byte>)
    ensures bytes == EncodeBundle(b)
  {
    var buf := new WireBuffer();
    buf.PutRecord(BUNDLE_LAYOUT, [MAGIC, |b.blockBytes|, |b.terminal|]);
    ghost var frame := buf.bytes;
    buf.bytes := buf.bytes + b.blockBytes;
    buf.bytes := buf.bytes + b.terminal;
    assert frame + b.blockBytes + b.terminal == frame + (b.blockBytes + b.terminal);
    bytes := buf.bytes;
  }
}
