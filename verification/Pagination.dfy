/** What a paged spend is: a logical spend, one owner and one anchor with a list of inputs and a list of
    outputs, cut into the fewest pages that hold it. A page list is accepted exactly when it is such a
    cut, and a block's stream exactly when it is a list of them behind its system records. */
module Pagination {
  import opened Powers
  import opened Types
  import opened Transactions
  import opened BlockLedger

  datatype LogicalSpend<D> = LogicalSpend(
    anchor: D, owner: Address, fee: u64, inputs: seq<TxInput>, outputs: seq<TxOutput>)

  /** The rules of a logical spend, which know nothing of pages. */
  predicate ValidSpend<D>(s: LogicalSpend<D>) {
    && 1 <= |s.inputs| <= 1020 && |s.outputs| <= 256
    && Distinct(InputSlots(s.inputs) + OutputSlots(s.outputs))
    && InputSum(s.inputs) == OutputSum(s.outputs) + s.fee
  }

  /** The least number of pages, at least one, with room for eight inputs and two outputs each. */
  function PagesNeeded<D>(s: LogicalSpend<D>): (n: nat)
    ensures n >= 1 && |s.inputs| <= 8 * n && |s.outputs| <= 2 * n
    ensures n > 1 ==> |s.inputs| > 8 * (n - 1) || |s.outputs| > 2 * (n - 1)
  {
    var byInputs, byOutputs := (|s.inputs| + 7) / 8, (|s.outputs| + 1) / 2;
    if byInputs == 0 && byOutputs == 0 then 1 else if byInputs < byOutputs then byOutputs else byInputs
  }

  // Bitmaps.

  /** The number whose bits are `flags`, lowest first. */
  function BitsValue(flags: seq<bool>): (v: nat)
    ensures v < Pow2(|flags|)
  {
    if |flags| == 0 then 0 else (if flags[0] then 1 else 0) + 2 * BitsValue(flags[1..])
  }

  lemma {:induction false} HigherBit(v: nat, i: nat)
    requires i > 0
    ensures Bit(v, i) == Bit(v / 2, i - 1)
  {
    ShrSum(v, 1, i - 1);
    assert Shr(v, 1) == v / 2 by { assert Shr(v, 0) == v; }
  }

  lemma {:induction false} BitsBack(flags: seq<bool>, i: nat)
    requires i < |flags|
    ensures Bit(BitsValue(flags), i) == flags[i]
  {
    var v, rest := BitsValue(flags), BitsValue(flags[1..]);
    assert v / 2 == rest && (v % 2 == 1 <==> flags[0]);
    if i == 0 {
      assert Shr(v, 0) == v;
    } else {
      HigherBit(v, i);
      BitsBack(flags[1..], i - 1);
    }
  }

  lemma {:induction false} BitsUnique(v: nat, flags: seq<bool>)
    requires v < Pow2(|flags|) && forall i :: 0 <= i < |flags| ==> Bit(v, i) == flags[i]
    ensures v == BitsValue(flags)
  {
    if |flags| == 0 {
    } else {
      assert Shr(v, 0) == v && Bit(v, 0) == flags[0];
      forall i | 0 <= i < |flags| - 1
        ensures Bit(v / 2, i) == flags[1..][i]
      {
        HigherBit(v, i + 1);
        assert Bit(v, i + 1) == flags[i + 1];
      }
      BitsUnique(v / 2, flags[1..]);
    }
  }

  // One page.

  function RecordOr<T>(list: seq<T>, k: nat, dummy: T): T {
    if k < |list| then list[k] else dummy
  }

  /** Bits 0-7 and 8-9 mark the records in use, bit 10 the first page, bit 11 the last. */
  function PageFlags(inputs: nat, outputs: nat, p: nat, n: nat): (flags: seq<bool>)
    ensures |flags| == 12
  {
    seq(12, i requires 0 <= i < 12 =>
      if i < 8 then 8 * p + i < inputs
      else if i < 10 then 2 * p + (i - 8) < outputs
      else if i == 10 then p == 0 else p + 1 == n)
  }

  lemma {:induction false} TwelveBits()
    ensures Pow2(12) == PAGE_BITMAP_LIMIT
  {
    assert Pow2(6) == 64;
    Pow2Sum(6, 6);
  }

  /** Page `p` of `n`: eight inputs, two outputs, the fee on the first page only. */
  function PageOf<D>(s: LogicalSpend<D>, p: nat, n: nat): (page: TxBody<D>)
    ensures |page.inputs| == TX_INPUTS && |page.outputs| == TX_OUTPUTS
  {
    TwelveBits();
    TxBody(s.anchor, if p == 0 then s.fee else 0, s.owner,
           seq(TX_INPUTS, i requires 0 <= i < TX_INPUTS => RecordOr(s.inputs, 8 * p + i, DUMMY_INPUT)),
           seq(TX_OUTPUTS, i requires 0 <= i < TX_OUTPUTS => RecordOr(s.outputs, 2 * p + i, DUMMY_OUTPUT)),
           BitsValue(PageFlags(|s.inputs|, |s.outputs|, p, n)), false)
  }

  function Paginate<D>(s: LogicalSpend<D>): (pages: seq<TxBody<D>>)
    ensures |pages| == PagesNeeded(s)
  {
    var n := PagesNeeded(s);
    seq(n, p requires 0 <= p < n => PageOf(s, p, n))
  }

  /** The spend a page list carries. */
  function SpendOf<D>(pages: seq<TxBody<D>>): LogicalSpend<D>
    requires |pages| > 0
  {
    LogicalSpend(pages[0].epochAnchor, pages[0].inputOwner, pages[0].fee, PageInputs(pages), PageOutputs(pages))
  }

  ghost predicate Shaped<D(!new)>(pages: seq<TxBody<D>>) {
    forall p :: 0 <= p < |pages| ==> FixedShape(pages[p])
  }

  // Records across pages, as one list with one list of flags.

  function Filter<T>(items: seq<T>, flags: seq<bool>): seq<T>
    requires |items| == |flags|
  {
    if |items| == 0 then [] else (if flags[0] then [items[0]] else []) + Filter(items[1..], flags[1..])
  }

  lemma {:induction false} FilterAppend<T>(a: seq<T>, fa: seq<bool>, b: seq<T>, fb: seq<bool>)
    requires |a| == |fa| && |b| == |fb|
    ensures Filter(a + b, fa + fb) == Filter(a, fa) + Filter(b, fb)
  {
    if |a| == 0 {
      assert a + b == b && fa + fb == fb;
    } else {
      FilterAppend(a[1..], fa[1..], b, fb);
      assert (a + b)[1..] == a[1..] + b && (fa + fb)[1..] == fa[1..] + fb;
      var first := if fa[0] then [a[0]] else [];
      assert Filter(a + b, fa + fb) == first + (Filter(a[1..], fa[1..]) + Filter(b, fb));
    }
  }

  predicate FlagsBelow(flags: seq<bool>, c: nat) {
    forall k :: 0 <= k < |flags| ==> (flags[k] <==> k < c)
  }

  /** Flags that are set exactly below `c` keep the first `c` items. */
  lemma {:induction false} FilterBelow<T>(items: seq<T>, flags: seq<bool>, c: nat)
    requires |items| == |flags| && c <= |items| && FlagsBelow(flags, c)
    ensures Filter(items, flags) == items[..c] && Dense(flags)
  {
    if |items| == 0 {
    } else if c == 0 {
      assert FlagsBelow(flags[1..], 0) by {
        assert forall k :: 0 <= k < |flags| - 1 ==> flags[1..][k] == flags[k + 1];
      }
      FilterBelow(items[1..], flags[1..], 0);
    } else {
      assert FlagsBelow(flags[1..], c - 1) by {
        assert forall k :: 0 <= k < |flags| - 1 ==> flags[1..][k] == flags[k + 1];
      }
      FilterBelow(items[1..], flags[1..], c - 1);
      assert items[..c] == [items[0]] + items[1..][..c - 1];
    }
  }

  /** Dense flags are set exactly below their count. */
  lemma {:induction false} DenseFilter<T>(items: seq<T>, flags: seq<bool>)
    requires |items| == |flags| && Dense(flags)
    ensures var c := |Filter(items, flags)|; c <= |items| && FlagsBelow(flags, c) && Filter(items, flags) == items[..c]
  {
    if |items| == 0 {
    } else if flags[0] {
      DenseTail(flags);
      DenseFilter(items[1..], flags[1..]);
      var c := |Filter(items[1..], flags[1..])|;
      assert FlagsBelow(flags, c + 1) by {
        assert forall k :: 0 < k < |flags| ==> flags[k] == flags[1..][k - 1];
      }
      assert items[..c + 1] == [items[0]] + items[1..][..c];
    } else {
      assert FlagsBelow(flags, 0);
      FilterBelow(items, flags, 0);
    }
  }

  lemma {:induction false} DenseTail(flags: seq<bool>)
    requires |flags| > 0 && Dense(flags)
    ensures Dense(flags[1..])
  {
    var tail := flags[1..];
    forall i, j | 0 <= i < j < |tail| && tail[j]
      ensures tail[i]
    {
      assert flags[j + 1];
    }
  }

  function InputRow<D>(page: TxBody<D>): seq<bool> {
    seq(TX_INPUTS, i requires 0 <= i < TX_INPUTS => InputIsLive(page, i))
  }

  function OutputRow<D>(page: TxBody<D>): seq<bool> {
    seq(TX_OUTPUTS, i requires 0 <= i < TX_OUTPUTS => OutputIsLive(page, i))
  }

  function AllInputs<D>(pages: seq<TxBody<D>>): seq<TxInput> {
    if |pages| == 0 then [] else pages[0].inputs + AllInputs(pages[1..])
  }

  function AllOutputs<D>(pages: seq<TxBody<D>>): seq<TxOutput> {
    if |pages| == 0 then [] else pages[0].outputs + AllOutputs(pages[1..])
  }

  lemma {:induction false} LiveInputsFiltered<D>(page: TxBody<D>, i: nat)
    requires FixedShape(page) && i <= TX_INPUTS
    ensures LiveInputsFrom(page, i) == Filter(page.inputs[i..], InputRow(page)[i..])
    decreases TX_INPUTS - i
  {
    if i == TX_INPUTS {
    } else {
      LiveInputsFiltered(page, i + 1);
      var items, flags := page.inputs[i..], InputRow(page)[i..];
      assert items[1..] == page.inputs[i + 1..] && flags[1..] == InputRow(page)[i + 1..];
    }
  }

  lemma {:induction false} LiveOutputsFiltered<D>(page: TxBody<D>, i: nat)
    requires FixedShape(page) && i <= TX_OUTPUTS
    ensures LiveOutputsFrom(page, i) == Filter(page.outputs[i..], OutputRow(page)[i..])
    decreases TX_OUTPUTS - i
  {
    if i == TX_OUTPUTS {
    } else {
      LiveOutputsFiltered(page, i + 1);
      var items, flags := page.outputs[i..], OutputRow(page)[i..];
      assert items[1..] == page.outputs[i + 1..] && flags[1..] == OutputRow(page)[i + 1..];
    }
  }

  /** The live inputs of a page list are the flagged ones of all its inputs. */
  lemma {:induction false} PageInputsFiltered<D(!new)>(pages: seq<TxBody<D>>)
    requires Shaped(pages)
    ensures |AllInputs(pages)| == |LiveInputFlags(pages)| == 8 * |pages|
    ensures PageInputs(pages) == Filter(AllInputs(pages), LiveInputFlags(pages))
  {
    if |pages| == 0 {
    } else {
      PageInputsFiltered(pages[1..]);
      LiveInputsFiltered(pages[0], 0);
      assert pages[0].inputs[0..] == pages[0].inputs && InputRow(pages[0])[0..] == InputRow(pages[0]);
      FilterAppend(pages[0].inputs, InputRow(pages[0]), AllInputs(pages[1..]), LiveInputFlags(pages[1..]));
    }
  }

  lemma {:induction false} PageOutputsFiltered<D(!new)>(pages: seq<TxBody<D>>)
    requires Shaped(pages)
    ensures |AllOutputs(pages)| == |LiveOutputFlags(pages)| == 2 * |pages|
    ensures PageOutputs(pages) == Filter(AllOutputs(pages), LiveOutputFlags(pages))
  {
    if |pages| == 0 {
    } else {
      PageOutputsFiltered(pages[1..]);
      LiveOutputsFiltered(pages[0], 0);
      assert pages[0].outputs[0..] == pages[0].outputs && OutputRow(pages[0])[0..] == OutputRow(pages[0]);
      FilterAppend(pages[0].outputs, OutputRow(pages[0]), AllOutputs(pages[1..]), LiveOutputFlags(pages[1..]));
    }
  }

  lemma {:induction false} InputAt<D(!new)>(pages: seq<TxBody<D>>, p: nat, i: nat)
    requires Shaped(pages) && p < |pages| && i < TX_INPUTS
    ensures 8 * p + i < |AllInputs(pages)| == |LiveInputFlags(pages)|
    ensures AllInputs(pages)[8 * p + i] == pages[p].inputs[i]
    ensures LiveInputFlags(pages)[8 * p + i] == InputIsLive(pages[p], i)
  {
    PageInputsFiltered(pages);
    if p == 0 {
    } else {
      InputAt(pages[1..], p - 1, i);
    }
  }

  lemma {:induction false} OutputAt<D(!new)>(pages: seq<TxBody<D>>, p: nat, i: nat)
    requires Shaped(pages) && p < |pages| && i < TX_OUTPUTS
    ensures 2 * p + i < |AllOutputs(pages)| == |LiveOutputFlags(pages)|
    ensures AllOutputs(pages)[2 * p + i] == pages[p].outputs[i]
    ensures LiveOutputFlags(pages)[2 * p + i] == OutputIsLive(pages[p], i)
  {
    PageOutputsFiltered(pages);
    if p == 0 {
    } else {
      OutputAt(pages[1..], p - 1, i);
    }
  }

  // From accepted pages back to the spend.

  lemma {:induction false} InputsBack<D(!new)>(pages: seq<TxBody<D>>, p: nat, i: nat)
    requires Shaped(pages) && Dense(LiveInputFlags(pages)) && p < |pages| && i < TX_INPUTS && DeadRecordsZero(pages[p])
    ensures InputIsLive(pages[p], i) <==> 8 * p + i < |PageInputs(pages)|
    ensures pages[p].inputs[i] == RecordOr(PageInputs(pages), 8 * p + i, DUMMY_INPUT)
  {
    PageInputsFiltered(pages);
    DenseFilter(AllInputs(pages), LiveInputFlags(pages));
    InputAt(pages, p, i);
  }

  lemma {:induction false} OutputsBack<D(!new)>(pages: seq<TxBody<D>>, p: nat, i: nat)
    requires Shaped(pages) && Dense(LiveOutputFlags(pages)) && p < |pages| && i < TX_OUTPUTS
    requires DeadRecordsZero(pages[p])
    ensures OutputIsLive(pages[p], i) <==> 2 * p + i < |PageOutputs(pages)|
    ensures pages[p].outputs[i] == RecordOr(PageOutputs(pages), 2 * p + i, DUMMY_OUTPUT)
  {
    PageOutputsFiltered(pages);
    DenseFilter(AllOutputs(pages), LiveOutputFlags(pages));
    OutputAt(pages, p, i);
  }

  /** The twelve bits of a page say how full it is and where it stands. */
  predicate MarkedAs<D>(page: TxBody<D>, inputs: nat, outputs: nat, p: nat, n: nat) {
    && page.validityBitmap < PAGE_BITMAP_LIMIT
    && (forall i :: 0 <= i < TX_INPUTS ==> (InputIsLive(page, i) <==> 8 * p + i < inputs))
    && (forall i :: 0 <= i < TX_OUTPUTS ==> (OutputIsLive(page, i) <==> 2 * p + i < outputs))
    && (IsStart(page) <==> p == 0) && (IsEnd(page) <==> p + 1 == n)
  }

  lemma {:induction false} MarksAreBitmap<D>(page: TxBody<D>, inputs: nat, outputs: nat, p: nat, n: nat)
    ensures MarkedAs(page, inputs, outputs, p, n) <==>
            page.validityBitmap == BitsValue(PageFlags(inputs, outputs, p, n))
  {
    var flags := PageFlags(inputs, outputs, p, n);
    TwelveBits();
    if MarkedAs(page, inputs, outputs, p, n) {
      forall i | 0 <= i < 12
        ensures Bit(page.validityBitmap, i) == flags[i]
      {
        if i < 8 {
          assert InputIsLive(page, i) == Bit(page.validityBitmap, i);
        } else if i < 10 {
          assert OutputIsLive(page, i - 8) == Bit(page.validityBitmap, i);
        }
      }
      BitsUnique(page.validityBitmap, flags);
    }
    if page.validityBitmap == BitsValue(flags) {
      forall i | 0 <= i < 12
        ensures Bit(page.validityBitmap, i) == flags[i]
      {
        BitsBack(flags, i);
      }
      MarksFromBits(page, inputs, outputs, p, n);
    }
  }

  lemma {:induction false} MarksFromBits<D>(page: TxBody<D>, inputs: nat, outputs: nat, p: nat, n: nat)
    requires page.validityBitmap < PAGE_BITMAP_LIMIT
    requires forall i :: 0 <= i < 12 ==> Bit(page.validityBitmap, i) == PageFlags(inputs, outputs, p, n)[i]
    ensures MarkedAs(page, inputs, outputs, p, n)
  {
    var bits, flags := page.validityBitmap, PageFlags(inputs, outputs, p, n);
    forall i | 0 <= i < TX_INPUTS
      ensures InputIsLive(page, i) <==> 8 * p + i < inputs
    {
      assert Bit(bits, i) == flags[i];
    }
    forall i | 0 <= i < TX_OUTPUTS
      ensures OutputIsLive(page, i) <==> 2 * p + i < outputs
    {
      assert Bit(bits, 8 + i) == flags[8 + i];
    }
    assert Bit(bits, START_BIT) == flags[10] && Bit(bits, END_BIT) == flags[11];
  }

  lemma {:induction false} AcceptedMarks<D(!new)>(pages: seq<TxBody<D>>, p: nat)
    requires Shaped(pages) && PagedSpendOk(pages) && p < |pages|
    ensures MarkedAs(pages[p], |PageInputs(pages)|, |PageOutputs(pages)|, p, |pages|)
  {
    forall i | 0 <= i < TX_INPUTS
      ensures InputIsLive(pages[p], i) <==> 8 * p + i < |PageInputs(pages)|
    {
      InputsBack(pages, p, i);
    }
    forall i | 0 <= i < TX_OUTPUTS
      ensures OutputIsLive(pages[p], i) <==> 2 * p + i < |PageOutputs(pages)|
    {
      OutputsBack(pages, p, i);
    }
  }

  /** Page `p` of an accepted list is page `p` of the spend it carries. */
  lemma {:induction false} PageBack<D(!new)>(pages: seq<TxBody<D>>, p: nat)
    requires Shaped(pages) && PagedSpendOk(pages) && p < |pages|
    ensures pages[p] == PageOf(SpendOf(pages), p, |pages|)
  {
    var s := SpendOf(pages);
    AcceptedMarks(pages, p);
    MarksAreBitmap(pages[p], |s.inputs|, |s.outputs|, p, |pages|);
    RecordsBack(pages, p);
  }

  lemma {:induction false} RecordsBack<D(!new)>(pages: seq<TxBody<D>>, p: nat)
    requires Shaped(pages) && PagedSpendOk(pages) && p < |pages|
    ensures pages[p].inputs == PageOf(SpendOf(pages), p, |pages|).inputs
    ensures pages[p].outputs == PageOf(SpendOf(pages), p, |pages|).outputs
  {
    forall i | 0 <= i < TX_INPUTS
      ensures pages[p].inputs[i] == PageOf(SpendOf(pages), p, |pages|).inputs[i]
    {
      InputsBack(pages, p, i);
    }
    forall i | 0 <= i < TX_OUTPUTS
      ensures pages[p].outputs[i] == PageOf(SpendOf(pages), p, |pages|).outputs[i]
    {
      OutputsBack(pages, p, i);
    }
  }

  lemma {:induction false} AcceptedIsPaginated<D(!new)>(pages: seq<TxBody<D>>)
    requires Shaped(pages) && PagedSpendOk(pages)
    ensures ValidSpend(SpendOf(pages)) && pages == Paginate(SpendOf(pages))
  {
    assert |pages| == PagesNeeded(SpendOf(pages));
    forall p | 0 <= p < |pages|
      ensures pages[p] == Paginate(SpendOf(pages))[p]
    {
      PageBack(pages, p);
    }
  }

  // From the spend to accepted pages.

  lemma {:induction false} PaginatedRecords<D(!new)>(s: LogicalSpend<D>, p: nat)
    requires p < PagesNeeded(s)
    ensures FixedShape(Paginate(s)[p]) && !Paginate(s)[p].isCoinbase
    ensures forall i :: 0 <= i < TX_INPUTS ==>
              Paginate(s)[p].inputs[i] == RecordOr(s.inputs, 8 * p + i, DUMMY_INPUT)
    ensures forall i :: 0 <= i < TX_OUTPUTS ==>
              Paginate(s)[p].outputs[i] == RecordOr(s.outputs, 2 * p + i, DUMMY_OUTPUT)
  {
  }

  lemma {:induction false} PaginatedMarks<D(!new)>(s: LogicalSpend<D>, p: nat)
    requires p < PagesNeeded(s)
    ensures MarkedAs(Paginate(s)[p], |s.inputs|, |s.outputs|, p, PagesNeeded(s))
  {
    MarksAreBitmap(Paginate(s)[p], |s.inputs|, |s.outputs|, p, PagesNeeded(s));
  }

  lemma {:induction false} PaginatedInputs<D(!new)>(s: LogicalSpend<D>)
    ensures PageInputs(Paginate(s)) == s.inputs && Dense(LiveInputFlags(Paginate(s)))
  {
    var pages := Paginate(s);
    PageInputsFiltered(pages);
    var items, flags := AllInputs(pages), LiveInputFlags(pages);
    forall k | 0 <= k < |flags|
      ensures flags[k] <==> k < |s.inputs|
      ensures k < |s.inputs| ==> items[k] == s.inputs[k]
    {
      PaginatedInputAt(s, k / 8, k % 8);
      assert k == 8 * (k / 8) + k % 8;
    }
    FilterBelow(items, flags, |s.inputs|);
  }

  lemma {:induction false} PaginatedInputAt<D(!new)>(s: LogicalSpend<D>, p: nat, i: nat)
    requires p < PagesNeeded(s) && i < TX_INPUTS
    ensures 8 * p + i < |AllInputs(Paginate(s))| == |LiveInputFlags(Paginate(s))|
    ensures LiveInputFlags(Paginate(s))[8 * p + i] <==> 8 * p + i < |s.inputs|
    ensures AllInputs(Paginate(s))[8 * p + i] == RecordOr(s.inputs, 8 * p + i, DUMMY_INPUT)
  {
    InputAt(Paginate(s), p, i);
    PaginatedMarks(s, p);
    PaginatedRecords(s, p);
  }

  lemma {:induction false} PaginatedOutputs<D(!new)>(s: LogicalSpend<D>)
    ensures PageOutputs(Paginate(s)) == s.outputs && Dense(LiveOutputFlags(Paginate(s)))
  {
    var pages := Paginate(s);
    PageOutputsFiltered(pages);
    var items, flags := AllOutputs(pages), LiveOutputFlags(pages);
    forall k | 0 <= k < |flags|
      ensures flags[k] <==> k < |s.outputs|
      ensures k < |s.outputs| ==> items[k] == s.outputs[k]
    {
      PaginatedOutputAt(s, k / 2, k % 2);
      assert k == 2 * (k / 2) + k % 2;
    }
    FilterBelow(items, flags, |s.outputs|);
  }

  lemma {:induction false} PaginatedOutputAt<D(!new)>(s: LogicalSpend<D>, p: nat, i: nat)
    requires p < PagesNeeded(s) && i < TX_OUTPUTS
    ensures 2 * p + i < |AllOutputs(Paginate(s))| == |LiveOutputFlags(Paginate(s))|
    ensures LiveOutputFlags(Paginate(s))[2 * p + i] <==> 2 * p + i < |s.outputs|
    ensures AllOutputs(Paginate(s))[2 * p + i] == RecordOr(s.outputs, 2 * p + i, DUMMY_OUTPUT)
  {
    OutputAt(Paginate(s), p, i);
    PaginatedMarks(s, p);
    PaginatedRecords(s, p);
  }

  lemma {:induction false} PaginatedShape<D(!new)>(s: LogicalSpend<D>, p: nat)
    requires p < PagesNeeded(s)
    ensures PageShape(Paginate(s)[p])
  {
    PaginatedMarks(s, p);
    PaginatedRecords(s, p);
  }

  /** Every valid spend has pages the rules accept, and they carry that spend back. */
  lemma {:induction false} PaginatedIsAccepted<D(!new)>(s: LogicalSpend<D>)
    requires ValidSpend(s)
    ensures PagedSpendOk(Paginate(s)) && SpendOf(Paginate(s)) == s
  {
    var pages := Paginate(s);
    PaginatedInputs(s);
    PaginatedOutputs(s);
    forall p | 0 <= p < |pages|
      ensures PageShape(pages[p]) && (IsStart(pages[p]) <==> p == 0) && (IsEnd(pages[p]) <==> p == |pages| - 1)
    {
      PaginatedMarks(s, p);
      PaginatedShape(s, p);
    }
  }

  /** A page list is accepted if and only if it is the pagination of a valid logical spend, and that
      spend is then the one it carries. */
  lemma {:induction false} PagedSpendExactly<D(!new)>(pages: seq<TxBody<D>>)
    requires Shaped(pages)
    ensures PagedSpendOk(pages) <==> exists s: LogicalSpend<D> :: ValidSpend(s) && pages == Paginate(s)
    ensures forall s: LogicalSpend<D> :: ValidSpend(s) && pages == Paginate(s) ==> SpendOf(pages) == s
  {
    if PagedSpendOk(pages) {
      AcceptedIsPaginated(pages);
    }
    forall s: LogicalSpend<D> | ValidSpend(s) && pages == Paginate(s)
      ensures PagedSpendOk(pages) && SpendOf(pages) == s
    {
      PaginatedIsAccepted(s);
    }
  }

  // Streams.

  /** The pages of a list of spends, one after another. */
  function Pages<D>(spends: seq<LogicalSpend<D>>): seq<TxBody<D>> {
    if |spends| == 0 then [] else Paginate(spends[0]) + Pages(spends[1..])
  }

  function Paginations<D>(spends: seq<LogicalSpend<D>>): seq<seq<TxBody<D>>> {
    seq(|spends|, k requires 0 <= k < |spends| => Paginate(spends[k]))
  }

  predicate ValidSpends<D>(spends: seq<LogicalSpend<D>>) {
    forall k :: 0 <= k < |spends| ==> ValidSpend(spends[k])
  }

  lemma {:induction false} FirstGroupEnds<D(!new)>(pages: seq<TxBody<D>>, n: nat)
    requires 1 <= n <= |pages| && IsEnd(pages[n - 1]) && forall p :: 0 <= p < n - 1 ==> !IsEnd(pages[p])
    ensures FirstGroup(pages) == Some(n)
  {
    if n == 1 {
    } else {
      FirstGroupEnds(pages[1..], n - 1);
    }
  }

  lemma {:induction false} FirstGroupOfPages<D(!new)>(s: LogicalSpend<D>, rest: seq<TxBody<D>>)
    ensures FirstGroup(Paginate(s) + rest) == Some(PagesNeeded(s))
  {
    var n := PagesNeeded(s);
    forall p | 0 <= p < n
      ensures IsEnd((Paginate(s) + rest)[p]) <==> p == n - 1
    {
      PaginatedMarks(s, p);
    }
    FirstGroupEnds(Paginate(s) + rest, n);
  }

  /** Cutting a list of paginations at its END marks gives the paginations back. */
  lemma {:induction false} PagesGroup<D(!new)>(spends: seq<LogicalSpend<D>>)
    requires ValidSpends(spends)
    ensures Groups(Pages(spends)) == Some(Paginations(spends))
  {
    if |spends| == 0 {
    } else {
      var first, rest := Paginate(spends[0]), Pages(spends[1..]);
      PagesGroup(spends[1..]);
      FirstGroupOfPages(spends[0], rest);
      PaginatedIsAccepted(spends[0]);
      assert (first + rest)[..|first|] == first && (first + rest)[|first|..] == rest;
      assert Paginations(spends) == [first] + Paginations(spends[1..]);
    }
  }

  /** The groups of a stream are the paginations of the spends they carry. */
  lemma {:induction false} GroupsPaginated<D(!new)>(pages: seq<TxBody<D>>) returns (spends: seq<LogicalSpend<D>>)
    requires Shaped(pages) && Groups(pages).Some?
    ensures ValidSpends(spends) && pages == Pages(spends)
    decreases |pages|
  {
    if |pages| == 0 {
      spends := [];
    } else {
      var n := FirstGroup(pages).value;
      assert Shaped(pages[..n]) && Shaped(pages[n..]);
      AcceptedIsPaginated(pages[..n]);
      var rest := GroupsPaginated(pages[n..]);
      spends := [SpendOf(pages[..n])] + rest;
      assert spends[1..] == rest && pages == pages[..n] + pages[n..];
    }
  }

  function SpentInputs<D>(spends: seq<LogicalSpend<D>>): seq<TxInput> {
    if |spends| == 0 then [] else spends[0].inputs + SpentInputs(spends[1..])
  }

  function MadeOutputs<D>(spends: seq<LogicalSpend<D>>): seq<TxOutput> {
    if |spends| == 0 then [] else spends[0].outputs + MadeOutputs(spends[1..])
  }

  lemma {:induction false} InputsAppend<D(!new)>(a: seq<TxBody<D>>, b: seq<TxBody<D>>)
    ensures PageInputs(a + b) == PageInputs(a) + PageInputs(b)
  {
    if |a| == 0 {
      assert a + b == b;
    } else {
      InputsAppend(a[1..], b);
      assert (a + b)[1..] == a[1..] + b && (a + b)[0] == a[0];
      assert LiveInputs(a[0]) + (PageInputs(a[1..]) + PageInputs(b))
          == LiveInputs(a[0]) + PageInputs(a[1..]) + PageInputs(b);
    }
  }

  lemma {:induction false} OutputsAppend<D(!new)>(a: seq<TxBody<D>>, b: seq<TxBody<D>>)
    ensures PageOutputs(a + b) == PageOutputs(a) + PageOutputs(b)
  {
    if |a| == 0 {
      assert a + b == b;
    } else {
      OutputsAppend(a[1..], b);
      assert (a + b)[1..] == a[1..] + b && (a + b)[0] == a[0];
      assert LiveOutputs(a[0]) + (PageOutputs(a[1..]) + PageOutputs(b))
          == LiveOutputs(a[0]) + PageOutputs(a[1..]) + PageOutputs(b);
    }
  }

  lemma {:induction false} RecordsOfPages<D(!new)>(spends: seq<LogicalSpend<D>>)
    ensures PageInputs(Pages(spends)) == SpentInputs(spends) && PageOutputs(Pages(spends)) == MadeOutputs(spends)
    ensures forall p :: 0 <= p < |Pages(spends)| ==> !Pages(spends)[p].isCoinbase
  {
    if |spends| == 0 {
    } else {
      RecordsOfPages(spends[1..]);
      PaginatedInputs(spends[0]);
      PaginatedOutputs(spends[0]);
      InputsAppend(Paginate(spends[0]), Pages(spends[1..]));
      OutputsAppend(Paginate(spends[0]), Pages(spends[1..]));
    }
  }

  /** The rules of a block's body in terms of logical spends. */
  ghost predicate IsStream(txs: seq<Body>, spends: seq<LogicalSpend<Digest>>) {
    && 0 < |txs| <= 256 && IsPrimaryCoinbase(txs[0]) && UserStart(txs) <= |txs|
    && ValidSpends(spends) && txs[UserStart(txs)..] == Pages(spends)
    && |SpentInputs(spends)| <= 1020
    && Distinct(InputSlots(SpentInputs(spends)) + OutputSlots(MadeOutputs(spends)))
  }

  lemma {:induction false} StreamSound(txs: seq<Body>, generation: Generation)
    returns (spends: seq<LogicalSpend<Digest>>)
    requires PageStream(txs, generation).Ok?
    ensures IsStream(txs, spends)
  {
    StreamParts(txs, generation);
    spends := GroupsPaginated<Digest>(txs[UserStart(txs)..]);
    RecordsOfPages(spends);
  }

  lemma {:induction false} StreamParts(txs: seq<Body>, generation: Generation)
    requires PageStream(txs, generation).Ok?
    ensures 0 < |txs| <= 256 && IsPrimaryCoinbase(txs[0]) && UserStart(txs) <= |txs|
    ensures var pages := txs[UserStart(txs)..];
            && Groups(pages).Some? && |PageInputs(pages)| <= 1020
            && Distinct(InputSlots(PageInputs(pages)) + OutputSlots(PageOutputs(pages)))
  {
  }

  lemma {:induction false} UserStreamExactly(pages: seq<Body>, spends: seq<LogicalSpend<Digest>>,
                                             generation: Generation)
    requires ValidSpends(spends) && pages == Pages(spends) && |pages| <= BLOCK_MAX_USER_PAGES
    requires |SpentInputs(spends)| <= 1020
    requires Distinct(InputSlots(SpentInputs(spends)) + OutputSlots(MadeOutputs(spends)))
    ensures UserStream(pages, generation) == Ok(Paginations(spends))
  {
    PagesGroup(spends);
    RecordsOfPages(spends);
    PagesBoundRecords(pages);
  }

  lemma {:induction false} StreamComplete(txs: seq<Body>, spends: seq<LogicalSpend<Digest>>, generation: Generation)
    requires IsStream(txs, spends)
    ensures PageStream(txs, generation).Ok?
    ensures var facts := PageStream(txs, generation).value;
            && facts.groups == Paginations(spends) && facts.pageCount == |txs| - UserStart(txs)
            && facts.liveInputs == |SpentInputs(spends)| && facts.liveOutputs == |MadeOutputs(spends)|
            && facts.hasDevelopmentPayout == HasPayout(txs)
            && (facts.proofClass.B25? <==> |txs| - 1 <= if generation.V1? then 25 else 24)
  {
    RecordsOfPages(spends);
    UserStreamExactly(txs[UserStart(txs)..], spends, generation);
    NoLaterCoinbase(txs, UserStart(txs), Pages(spends));
    FactsOf(txs, generation, Paginations(spends));
  }

  lemma {:induction false} NoLaterCoinbase(txs: seq<Body>, cut: nat, pages: seq<TxBody<Digest>>)
    requires cut <= |txs| && txs[cut..] == pages && forall p :: 0 <= p < |pages| ==> !pages[p].isCoinbase
    ensures forall i :: cut <= i < |txs| ==> !txs[i].isCoinbase
  {
    forall i | cut <= i < |txs|
      ensures !txs[i].isCoinbase
    {
      assert txs[i] == pages[i - cut];
    }
  }

  lemma {:induction false} FactsOf(txs: seq<Body>, generation: Generation, groups: seq<seq<TxBody<Digest>>>)
    requires 0 < |txs| <= 256 && IsPrimaryCoinbase(txs[0]) && UserStart(txs) <= |txs|
    requires forall i :: UserStart(txs) <= i < |txs| ==> !txs[i].isCoinbase
    requires UserStream(txs[UserStart(txs)..], generation) == Ok(groups)
    ensures PageStream(txs, generation).Ok?
    ensures var facts, pages := PageStream(txs, generation).value, txs[UserStart(txs)..];
            && facts.groups == groups && facts.pageCount == |pages| && facts.liveInputs == |PageInputs(pages)|
            && facts.liveOutputs == |PageOutputs(pages)| && facts.hasDevelopmentPayout == HasPayout(txs)
            && (facts.proofClass.B25? <==> |txs| - 1 <= if generation.V1? then 25 else 24)
  {
  }

  /** A block's body is accepted if and only if it is a primary coinbase, at most one payout, and the
      pages of valid logical spends on distinct slots, within 256 records and 1020 inputs; its facts are
      then those of the spends. */
  lemma {:induction false} StreamExactly(txs: seq<Body>, generation: Generation)
    ensures PageStream(txs, generation).Ok? <==> exists spends :: IsStream(txs, spends)
    ensures forall spends :: IsStream(txs, spends) ==>
              PageStream(txs, generation).Ok? && PageStream(txs, generation).value.groups == Paginations(spends)
  {
    if PageStream(txs, generation).Ok? {
      var spends := StreamSound(txs, generation);
    }
    forall spends | IsStream(txs, spends)
      ensures PageStream(txs, generation).Ok? && PageStream(txs, generation).value.groups == Paginations(spends)
    {
      StreamComplete(txs, spends, generation);
    }
  }

  /** Why a body is refused: no coinbase, another record first, a malformed one, a second one; then too many
      pages, and then whatever is wrong with the spends. */
  lemma {:induction false} StreamRefusals(txs: seq<Body>, generation: Generation)
    ensures var r := PageStream(txs, generation);
            if |txs| == 0 then r == Err(MissingCoinbase)
            else if !txs[0].isCoinbase then r == Err(CoinbaseNotFirst)
            else if txs[0].validityBitmap != 0x100 then r == Err(InvalidPrimaryCoinbase)
            else if exists i :: UserStart(txs) <= i < |txs| && txs[i].isCoinbase then r == Err(MultipleCoinbase)
            else if |txs| - UserStart(txs) > 255 then r == Err(PagedSpend(BlockPageLimit(|txs| - UserStart(txs), 255)))
            else r.Ok? || r.error.PagedSpend?
  {
  }

  // System records.

  /** A system mint of one or two outputs: nothing else in the body. */
  function SystemBody<D>(anchor: D, outputs: seq<TxOutput>): TxBody<D> {
    TxBody(anchor, 0, ZERO_WORD, seq(TX_INPUTS, i => DUMMY_INPUT),
           seq(TX_OUTPUTS, i requires 0 <= i < TX_OUTPUTS => RecordOr(outputs, i, DUMMY_OUTPUT)),
           if |outputs| == 1 then 0x100 else 0x300, true)
  }

  lemma {:induction false} SystemOutputs<D(!new)>(body: TxBody<D>)
    requires FixedShape(body) && (body.validityBitmap == 0x100 || body.validityBitmap == 0x300)
    ensures LiveInputs(body) == []
    ensures LiveOutputs(body) == if body.validityBitmap == 0x100 then [body.outputs[0]] else body.outputs
    ensures forall i :: 0 <= i < TX_INPUTS ==> !InputIsLive(body, i)
    ensures OutputIsLive(body, 0) && (OutputIsLive(body, 1) <==> body.validityBitmap == 0x300)
  {
    SystemBits();
    DeadInputs(body, 0);
    assert LiveOutputsFrom(body, 2) == [];
    assert LiveOutputsFrom(body, 1) == if OutputIsLive(body, 1) then [body.outputs[1]] else [];
    assert body.outputs == [body.outputs[0], body.outputs[1]];
  }

  /** A canonical coinbase body is a system mint to distinct slots, and nothing but that. */
  lemma {:induction false} SystemBodyExactly<D(!new)>(body: TxBody<D>)
    requires FixedShape(body)
    ensures body.isCoinbase && CanonicalBody(body) <==>
            && 1 <= |LiveOutputs(body)| <= 2 && Distinct(OutputSlots(LiveOutputs(body)))
            && body == SystemBody(body.epochAnchor, LiveOutputs(body))
  {
    if body.validityBitmap == 0x100 || body.validityBitmap == 0x300 {
      SystemOutputs(body);
      assert InputSlots([]) + OutputSlots(LiveOutputs(body)) == OutputSlots(LiveOutputs(body));
      SystemDead(body);
    }
  }

  lemma {:induction false} SystemDead<D(!new)>(body: TxBody<D>)
    requires FixedShape(body) && (body.validityBitmap == 0x100 || body.validityBitmap == 0x300)
    ensures DeadRecordsZero(body) <==>
            && body.inputs == SystemBody(body.epochAnchor, LiveOutputs(body)).inputs
            && body.outputs == SystemBody(body.epochAnchor, LiveOutputs(body)).outputs
  {
    SystemOutputs(body);
    var built := SystemBody(body.epochAnchor, LiveOutputs(body));
    if DeadRecordsZero(body) {
      assert forall i :: 0 <= i < TX_INPUTS ==> body.inputs[i] == built.inputs[i];
      assert forall i :: 0 <= i < TX_OUTPUTS ==> body.outputs[i] == built.outputs[i];
    }
    if body.inputs == built.inputs && body.outputs == built.outputs {
      assert forall i :: 0 <= i < TX_INPUTS ==> body.inputs[i] == DUMMY_INPUT;
    }
  }
}
