/** Raw column state: three parallel columns updated in place under a cached root. The commitment
    itself is a parameter, a function of the depth and the three columns. */
module FriState {
  import opened Powers
  import opened Types
  import opened ExactState
  import opened SlotVector
  import opened Multilinear

  datatype StateError = SlotOutOfRange

  type Commitment = (nat, seq<u128>, seq<u128>, seq<u128>) -> Digest

  /** The slot vector three columns stand for. */
  function Rows(values: seq<u128>, ownersHi: seq<u128>, ownersLo: seq<u128>): seq<SlotValue>
    requires |values| == |ownersHi| == |ownersLo|
  {
    seq(|values|, i requires 0 <= i < |values| => SlotValue(values[i], ownersHi[i], ownersLo[i]))
  }

  /** The root a slot vector commits to, column by column. */
  function RootOf(commit: Commitment, logSlots: nat, slots: seq<SlotValue>): Digest {
    commit(logSlots,
           seq(|slots|, i requires 0 <= i < |slots| => slots[i].value),
           seq(|slots|, i requires 0 <= i < |slots| => slots[i].ownerHi),
           seq(|slots|, i requires 0 <= i < |slots| => slots[i].ownerLo))
  }

  lemma {:induction false} RowsRoot(commit: Commitment, logSlots: nat, values: seq<u128>, ownersHi: seq<u128>,
                                    ownersLo: seq<u128>)
    requires |values| == |ownersHi| == |ownersLo|
    ensures commit(logSlots, values, ownersHi, ownersLo) == RootOf(commit, logSlots, Rows(values, ownersHi, ownersLo))
  {
    var slots := Rows(values, ownersHi, ownersLo);
    assert seq(|slots|, i requires 0 <= i < |slots| => slots[i].value) == values;
    assert seq(|slots|, i requires 0 <= i < |slots| => slots[i].ownerHi) == ownersHi;
    assert seq(|slots|, i requires 0 <= i < |slots| => slots[i].ownerLo) == ownersLo;
  }

  class FriState {
    const commit: Commitment
    const logSlots: nat
    const values: array<u128>
    const ownersHi: array<u128>
    const ownersLo: array<u128>
    var cachedRoot: Option<Digest>

    /** The columns are full and separate, and a cached root is the root of the current columns. */
    ghost predicate Valid()
      reads this, values, ownersHi, ownersLo
    {
      && values.Length == ownersHi.Length == ownersLo.Length == Pow2(logSlots)
      && values != ownersHi && values != ownersLo && ownersHi != ownersLo
      && (cachedRoot.Some? ==> cachedRoot.value == RootOf(commit, logSlots, Slots()))
    }

    ghost function Slots(): (slots: seq<SlotValue>)
      reads this, values, ownersHi, ownersLo
      requires values.Length == ownersHi.Length == ownersLo.Length == Pow2(logSlots)
      ensures |slots| == Pow2(logSlots)
    {
      Rows(values[..], ownersHi[..], ownersLo[..])
    }

    constructor NewEmpty(commit: Commitment, logSlots: nat)
      requires logSlots >= 1
      ensures Valid() && this.logSlots == logSlots && this.commit == commit && cachedRoot == None
      ensures fresh(values) && fresh(ownersHi) && fresh(ownersLo)
      ensures Slots() == Empties(Pow2(logSlots))
    {
      this.commit, this.logSlots := commit, logSlots;
      values := new u128[Pow2(logSlots)](_ => 0);
      ownersHi := new u128[Pow2(logSlots)](_ => 0);
      ownersLo := new u128[Pow2(logSlots)](_ => 0);
      cachedRoot := None;
    }

    method Slot(index: nat) returns (slot: SlotValue)
      requires Valid() && index < Pow2(logSlots)
      ensures slot == Slots()[index]
    {
      slot := SlotValue(values[index], ownersHi[index], ownersLo[index]);
    }

    /** Overwrite one row in all three columns. */
    method WriteRow(index: nat, slot: SlotValue)
      requires values.Length == ownersHi.Length == ownersLo.Length == Pow2(logSlots) && index < Pow2(logSlots)
      requires values != ownersHi && values != ownersLo && ownersHi != ownersLo
      modifies values, ownersHi, ownersLo
      ensures Slots() == old(Slots())[index := slot]
    {
      values[index] := slot.value;
      ownersHi[index] := slot.ownerHi;
      ownersLo[index] := slot.ownerLo;
    }

    /** `apply_delta`: reject before writing, or write all in order, later entries winning. */
    method ApplyDelta(writes: seq<Write>) returns (r: Result<Digest, StateError>)
      requires Valid()
      modifies this, values, ownersHi, ownersLo
      ensures Valid()
      ensures r.Ok? <==> InRange(writes, Pow2(logSlots))
      ensures r.Ok? ==> Slots() == WriteAll(old(Slots()), writes)
      ensures r.Ok? ==> r.value == RootOf(commit, logSlots, Slots()) && cachedRoot == Some(r.value)
      ensures r.Err? ==> Slots() == old(Slots()) && cachedRoot == old(cachedRoot)
    {
      for k := 0 to |writes|
        invariant InRange(writes[..k], Pow2(logSlots))
        invariant Valid() && Slots() == old(Slots()) && cachedRoot == old(cachedRoot)
      {
        if writes[k].slot >= Pow2(logSlots) {
          return Err(SlotOutOfRange);
        }
        assert writes[..k + 1] == writes[..k] + [writes[k]];
      }
      assert writes[..|writes|] == writes;
      cachedRoot := None;
      WriteRows(writes);
      var root := Root();
      r := Ok(root);
    }

    method WriteRows(writes: seq<Write>)
      requires Valid() && InRange(writes, Pow2(logSlots)) && cachedRoot == None
      modifies values, ownersHi, ownersLo
      ensures Valid() && Slots() == WriteAll(old(Slots()), writes)
    {
      for k := 0 to |writes|
        invariant Valid() && InRange(writes[..k], Pow2(logSlots))
        invariant Slots() == WriteAll(old(Slots()), writes[..k])
      {
        WriteRow(writes[k].slot, writes[k].value);
        assert writes[..k + 1][..k] == writes[..k];
      }
      assert writes[..|writes|] == writes;
    }

    method SetSlot(index: u32, slot: SlotValue) returns (r: Result<Digest, StateError>)
      requires Valid()
      modifies this, values, ownersHi, ownersLo
      ensures Valid()
      ensures r.Ok? <==> index < Pow2(logSlots)
      ensures r.Ok? ==> Slots() == old(Slots())[index := slot]
      ensures r.Ok? ==> r.value == RootOf(commit, logSlots, Slots()) && cachedRoot == Some(r.value)
      ensures r.Err? ==> Slots() == old(Slots()) && cachedRoot == old(cachedRoot)
    {
      r := ApplyDelta([Write(index, slot)]);
      assert [Write(index, slot)][..0] == [];
      assert r.Ok? ==> [Write(index, slot)][0].slot < Pow2(logSlots);
    }

    /** `root`: the cached value, or a fresh commitment that is then cached. */
    method Root() returns (root: Digest)
      requires Valid()
      modifies this`cachedRoot
      ensures Valid() && Slots() == old(Slots())
      ensures root == RootOf(commit, logSlots, Slots()) && cachedRoot == Some(root)
    {
      if cachedRoot.Some? {
        return cachedRoot.value;
      }
      RowsRoot(commit, logSlots, values[..], ownersHi[..], ownersLo[..]);
      root := commit(logSlots, values[..], ownersHi[..], ownersLo[..]);
      cachedRoot := Some(root);
    }
  }

  /** Single writes applied from the front, one at a time. */
  function SetEach(slots: seq<SlotValue>, writes: seq<Write>): seq<SlotValue>
    requires InRange(writes, |slots|)
    decreases |writes|
  {
    if |writes| == 0 then slots else SetEach(slots[writes[0].slot := writes[0].value], writes[1..])
  }

  /** A batch equals its single writes in order. */
  lemma {:induction false} BatchIsSequential(slots: seq<SlotValue>, writes: seq<Write>)
    requires InRange(writes, |slots|)
    ensures WriteAll(slots, writes) == SetEach(slots, writes)
    decreases |writes|
  {
    if |writes| == 0 {
    } else {
      var first := slots[writes[0].slot := writes[0].value];
      BatchIsSequential(first, writes[1..]);
      WriteAllAppend(slots, writes[..1], writes[1..]);
      assert writes == writes[..1] + writes[1..];
      assert writes[..1][..0] == [];
      assert WriteAll(slots, writes[..1]) == first;
    }
  }

  /** Only the last write to a slot survives a batch. */
  lemma {:induction false} LastWriteWins(slots: seq<SlotValue>, writes: seq<Write>, k: nat)
    requires InRange(writes, |slots|) && k < |writes|
    requires forall j :: k < j < |writes| ==> writes[j].slot != writes[k].slot
    ensures WriteAll(slots, writes)[writes[k].slot] == writes[k].value
  {
    if k >= |writes| - 1 {
    } else {
      LastWriteWins(slots, writes[..|writes| - 1], k);
    }
  }

  /** Opening a slot: the three evaluations at the slot's own point are the slot's three lanes. */
  lemma {:induction false} SlotIsItsOpening(f: Field<u128>, values: seq<u128>, ownersHi: seq<u128>, ownersLo: seq<u128>,
                                            index: nat, logSlots: nat)
    requires Ring(f) && |values| == |ownersHi| == |ownersLo| == Pow2(logSlots) && index < Pow2(logSlots)
    ensures var point := EvalPoint(f, index, logSlots);
            SlotValue(Fold(f, values, point), Fold(f, ownersHi, point), Fold(f, ownersLo, point))
            == Rows(values, ownersHi, ownersLo)[index]
  {
    EvalAtIndex(f, values, index, logSlots);
    EvalAtIndex(f, ownersHi, index, logSlots);
    EvalAtIndex(f, ownersLo, index, logSlots);
  }
}
