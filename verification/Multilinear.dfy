/** Multilinear evaluation of a column: the in-place fold, the sum over the hypercube it computes,
    evaluation at a slot's own point, and zero padding. Field arithmetic is any commutative ring of
    characteristic two. */
module Multilinear {
  import opened Powers
  import opened Transactions

  datatype Field<!F> = Field(zero: F, one: F, add: (F, F) -> F, mul: (F, F) -> F)

  // Names for the instances a proof asks for, so that laws apply only where they are called on.
  ghost predicate At<F>(a: F) { true }
  ghost predicate Pair<F>(a: F, b: F) { true }
  ghost predicate Triple<F>(a: F, b: F, c: F) { true }

  /** The ring laws the evaluation relies on. */
  ghost predicate Ring<F(!new)>(f: Field<F>) {
    && (forall a, b {:trigger Pair(a, b)} :: f.add(a, b) == f.add(b, a) && f.mul(a, b) == f.mul(b, a))
    && (forall a, b, c {:trigger Triple(a, b, c)} ::
         && f.add(f.add(a, b), c) == f.add(a, f.add(b, c))
         && f.mul(f.mul(a, b), c) == f.mul(a, f.mul(b, c))
         && f.mul(a, f.add(b, c)) == f.add(f.mul(a, b), f.mul(a, c)))
    && (forall a {:trigger At(a)} :: f.add(a, f.zero) == a && f.add(a, a) == f.zero && f.mul(a, f.one) == a)
  }

  /** The laws are consistent: the two-element field satisfies them. */
  lemma {:induction false} BitsAreARing()
    ensures Ring(Field(false, true, (a: bool, b: bool) => a != b, (a: bool, b: bool) => a && b))
  {
  }

  lemma {:induction false} Comm<F(!new)>(f: Field<F>, a: F, b: F)
    requires Ring(f)
    ensures f.add(a, b) == f.add(b, a) && f.mul(a, b) == f.mul(b, a)
  {
    assert Pair(a, b);
  }

  lemma {:induction false} Assoc<F(!new)>(f: Field<F>, a: F, b: F, c: F)
    requires Ring(f)
    ensures f.add(f.add(a, b), c) == f.add(a, f.add(b, c))
    ensures f.mul(f.mul(a, b), c) == f.mul(a, f.mul(b, c))
    ensures f.mul(a, f.add(b, c)) == f.add(f.mul(a, b), f.mul(a, c))
  {
    assert Triple(a, b, c);
  }

  lemma {:induction false} Units<F(!new)>(f: Field<F>, a: F)
    requires Ring(f)
    ensures f.add(a, f.zero) == a && f.add(f.zero, a) == a && f.add(a, a) == f.zero
    ensures f.mul(a, f.one) == a && f.mul(f.one, a) == a
  {
    assert At(a);
    Comm(f, a, f.zero);
    Comm(f, a, f.one);
  }

  lemma {:induction false} TimesZero<F(!new)>(f: Field<F>, a: F)
    requires Ring(f)
    ensures f.mul(a, f.zero) == f.zero && f.mul(f.zero, a) == f.zero
  {
    Units(f, f.zero);
    Units(f, f.mul(a, f.zero));
    Assoc(f, a, f.zero, f.zero);
    Comm(f, a, f.zero);
  }

  /** One step of the fold: linear interpolation between two entries. */
  function Mix<F>(f: Field<F>, lo: F, hi: F, r: F): F {
    f.add(lo, f.mul(r, f.add(hi, lo)))
  }

  /** Halve a column by mixing its two halves at `r`. */
  function FoldOnce<F>(f: Field<F>, evals: seq<F>, r: F): (half: seq<F>)
    ensures |half| == |evals| / 2
  {
    var h := |evals| / 2;
    seq(h, i requires 0 <= i < h => Mix(f, evals[i], evals[i + h], r))
  }

  /** Fold away the variables from the last to the first. */
  function Fold<F>(f: Field<F>, evals: seq<F>, point: seq<F>): F
    requires |evals| == Pow2(|point|)
    decreases |point|
  {
    if |point| == 0 then evals[0]
    else Fold(f, FoldOnce(f, evals, point[|point| - 1]), point[..|point| - 1])
  }

  /** `mle_eval_native`: the fold, in place. */
  method MleEvalNative<F(0)>(f: Field<F>, evals: seq<F>, point: seq<F>) returns (value: F)
    requires |evals| == Pow2(|point|)
    ensures value == Fold(f, evals, point)
  {
    var buf := new F[|evals|](i requires 0 <= i < |evals| => evals[i]);
    var len := |evals|;
    assert buf[..len] == evals && point[..|point|] == point;
    for k := |point| downto 0
      invariant len == Pow2(k) <= buf.Length
      invariant Fold(f, buf[..len], point[..k]) == Fold(f, evals, point)
    {
      ghost var before := buf[..len];
      FoldHalf(f, buf, len, point[k]);
      len := len / 2;
      assert point[..k + 1][..k] == point[..k];
      assert buf[..len] == FoldOnce(f, before, point[k]);
    }
    value := buf[0];
  }

  /** Overwrite the first half of the live prefix with its mix; the second half is then dead. */
  method FoldHalf<F(0)>(f: Field<F>, buf: array<F>, len: nat, r: F)
    requires len <= buf.Length && len % 2 == 0
    modifies buf
    ensures buf[..len / 2] == FoldOnce(f, old(buf[..len]), r)
  {
    var half := len / 2;
    ghost var before := buf[..len];
    for i := 0 to half
      invariant forall k :: 0 <= k < i ==> buf[k] == Mix(f, before[k], before[k + half], r)
      invariant forall k :: i <= k < len ==> buf[k] == before[k]
    {
      buf[i] := Mix(f, buf[i], buf[i + half], r);
    }
  }

  // The sum over the hypercube.

  /** The Lagrange weight of vertex `i`: bit `j` of `i` selects `point[j]` or its complement. */
  function Lagrange<F>(f: Field<F>, i: nat, point: seq<F>): F {
    if |point| == 0 then f.one
    else
      var j := |point| - 1;
      f.mul(Lagrange(f, i, point[..j]), if Bit(i, j) then point[j] else f.add(f.one, point[j]))
  }

  /** `sum over i < n of term(i)`. */
  function Sum<F>(f: Field<F>, term: nat -> F, n: nat): F {
    if n == 0 then f.zero else f.add(Sum(f, term, n - 1), term(n - 1))
  }

  /** The multilinear extension of a column at a point. */
  function Extension<F>(f: Field<F>, evals: seq<F>, point: seq<F>): F
    requires |evals| == Pow2(|point|)
  {
    Sum(f, Term(f, evals, point), Pow2(|point|))
  }

  function Term<F>(f: Field<F>, evals: seq<F>, point: seq<F>): nat -> F {
    (i: nat) => if i < |evals| then f.mul(evals[i], Lagrange(f, i, point)) else f.zero
  }

  lemma {:induction false} SumAgrees<F(!new)>(f: Field<F>, a: nat -> F, b: nat -> F, n: nat)
    requires forall i: nat :: i < n ==> a(i) == b(i)
    ensures Sum(f, a, n) == Sum(f, b, n)
  {
    if n == 0 {
    } else {
      SumAgrees(f, a, b, n - 1);
    }
  }

  lemma {:induction false} Interchange<F(!new)>(f: Field<F>, a: F, b: F, c: F, d: F)
    requires Ring(f)
    ensures f.add(f.add(a, b), f.add(c, d)) == f.add(f.add(a, c), f.add(b, d))
  {
    Assoc(f, a, b, f.add(c, d));
    Assoc(f, b, c, d);
    Comm(f, b, c);
    Assoc(f, c, b, d);
    Assoc(f, a, c, f.add(b, d));
  }

  /** A sum over `h + m` terms, `m <= h`, pairs the first `m` with the last `m`. */
  lemma {:induction false} SumPairs<F(!new)>(f: Field<F>, term: nat -> F, h: nat, m: nat)
    requires Ring(f)
    ensures Sum(f, term, h + m) == f.add(Sum(f, term, h), Sum(f, (i: nat) => term(h + i), m))
  {
    if m > 0 {
      var upper := (i: nat) => term(h + i);
      SumPairs(f, term, h, m - 1);
      Assoc(f, Sum(f, term, h), Sum(f, upper, m - 1), upper(m - 1));
    } else {
      Units(f, Sum(f, term, h));
    }
  }

  lemma {:induction false} SumOfSums<F(!new)>(f: Field<F>, a: nat -> F, b: nat -> F, n: nat)
    requires Ring(f)
    ensures f.add(Sum(f, a, n), Sum(f, b, n)) == Sum(f, (i: nat) => f.add(a(i), b(i)), n)
  {
    if n > 0 {
      SumOfSums(f, a, b, n - 1);
      Interchange(f, Sum(f, a, n - 1), a(n - 1), Sum(f, b, n - 1), b(n - 1));
    } else {
      Units(f, f.zero);
    }
  }

  /** Folding one variable and then weighting equals weighting the two entries it mixes. */
  lemma {:induction false} MixWeights<F(!new)>(f: Field<F>, lo: F, hi: F, r: F, w: F)
    requires Ring(f)
    ensures f.mul(Mix(f, lo, hi, r), w)
         == f.add(f.mul(lo, f.mul(w, f.add(f.one, r))), f.mul(hi, f.mul(w, r)))
  {
    var wr := f.mul(w, r);
    Comm(f, Mix(f, lo, hi, r), w);
    Assoc(f, w, lo, f.mul(r, f.add(hi, lo)));
    Assoc(f, w, r, f.add(hi, lo));
    Assoc(f, wr, hi, lo);
    Assoc(f, w, f.one, r);
    Units(f, w);
    Assoc(f, lo, w, wr);
    Comm(f, w, lo);
    Comm(f, wr, lo);
    Comm(f, wr, hi);
    Comm(f, f.mul(hi, wr), f.mul(lo, wr));
    Assoc(f, f.mul(lo, w), f.mul(lo, wr), f.mul(hi, wr));
  }

  lemma {:induction false} TopBit(i: nat, n: nat)
    requires i < Pow2(n)
    ensures !Bit(i, n) && Bit(Pow2(n) + i, n)
    ensures forall j: nat :: j < n ==> (Bit(Pow2(n) + i, j) <==> Bit(i, j))
  {
    InDomain(i, n);
    ShlIsProduct(1, n);
    assert Shl(1, n) == Pow2(n);
    LowBits(i, n, n);
    forall j: nat | j < n
      ensures Bit(Pow2(n) + i, j) <==> Bit(i, j)
    {
      LowBits(i, n, j);
    }
  }

  lemma {:induction false} LowBits(i: nat, n: nat, j: nat)
    requires j <= n
    ensures Shr(Pow2(n) + i, j) == Pow2(n - j) + Shr(i, j)
  {
    if j == 0 {
    } else {
      LowBits(i, n, j - 1);
      assert Pow2(n - j + 1) == 2 * Pow2(n - j);
    }
  }

  lemma {:induction false} SameLowBits<F(!new)>(f: Field<F>, i: nat, i': nat, point: seq<F>)
    requires forall j: nat :: j < |point| ==> (Bit(i, j) <==> Bit(i', j))
    ensures Lagrange(f, i, point) == Lagrange(f, i', point)
  {
    if |point| == 0 {
    } else {
      SameLowBits(f, i, i', point[..|point| - 1]);
    }
  }

  lemma {:induction false} LagrangeSplits<F(!new)>(f: Field<F>, i: nat, point: seq<F>)
    requires |point| > 0 && i < Pow2(|point| - 1)
    ensures var n, r := |point| - 1, point[|point| - 1];
            && Lagrange(f, i, point) == f.mul(Lagrange(f, i, point[..n]), f.add(f.one, r))
            && Lagrange(f, Pow2(n) + i, point) == f.mul(Lagrange(f, i, point[..n]), r)
  {
    var n := |point| - 1;
    TopBit(i, n);
    SameLowBits(f, Pow2(n) + i, i, point[..n]);
  }

  /** A pair of terms, one per half, is the term of the folded column. */
  lemma {:induction false} PairFolds<F(!new)>(f: Field<F>, evals: seq<F>, point: seq<F>, i: nat)
    requires Ring(f) && |point| > 0 && |evals| == Pow2(|point|) && i < Pow2(|point| - 1)
    ensures var n := |point| - 1;
            f.add(Term(f, evals, point)(i), Term(f, evals, point)(Pow2(n) + i))
            == Term(f, FoldOnce(f, evals, point[n]), point[..n])(i)
  {
    var n := |point| - 1;
    LagrangeSplits(f, i, point);
    MixWeights(f, evals[i], evals[Pow2(n) + i], point[n], Lagrange(f, i, point[..n]));
  }

  lemma {:induction false} ExtensionFoldsOnce<F(!new)>(f: Field<F>, evals: seq<F>, point: seq<F>)
    requires Ring(f) && |point| > 0 && |evals| == Pow2(|point|)
    ensures Extension(f, evals, point)
         == Extension(f, FoldOnce(f, evals, point[|point| - 1]), point[..|point| - 1])
  {
    var n, h := |point| - 1, Pow2(|point| - 1);
    var term, folded := Term(f, evals, point), Term(f, FoldOnce(f, evals, point[n]), point[..n]);
    var upper := (i: nat) => term(h + i);
    var paired := (i: nat) => f.add(term(i), upper(i));
    SumPairs(f, term, h, h);
    SumOfSums(f, term, upper, h);
    forall i: nat | i < h
      ensures paired(i) == folded(i)
    {
      PairFolds(f, evals, point, i);
    }
    SumAgrees(f, paired, folded, h);
  }

  lemma {:induction false} SumOfOne<F(!new)>(f: Field<F>, term: nat -> F, n: nat)
    requires Ring(f) && n == 1
    ensures Sum(f, term, n) == term(0)
  {
    assert Sum(f, term, n - 1) == f.zero;
    Units(f, term(0));
  }

  /** The in-place fold is the multilinear extension, at every point of the field. */
  lemma {:induction false} FoldIsExtension<F(!new)>(f: Field<F>, evals: seq<F>, point: seq<F>)
    requires Ring(f) && |evals| == Pow2(|point|)
    ensures Fold(f, evals, point) == Extension(f, evals, point)
    decreases |point|
  {
    if |point| == 0 {
      assert Pow2(|point|) == 1;
      SumOfOne(f, Term(f, evals, point), Pow2(|point|));
      assert Lagrange(f, 0, point) == f.one;
      assert Term(f, evals, point)(0) == f.mul(evals[0], Lagrange(f, 0, point));
      Units(f, evals[0]);
      assert Fold(f, evals, point) == evals[0];
    } else {
      FoldIsExtension(f, FoldOnce(f, evals, point[|point| - 1]), point[..|point| - 1]);
      ExtensionFoldsOnce(f, evals, point);
    }
  }

  // Evaluation at a slot's own point.

  /** `eval_point_for_index`: bit `j` of the index at variable `j`. */
  function EvalPoint<F>(f: Field<F>, index: nat, n: nat): (point: seq<F>)
    ensures |point| == n
  {
    seq(n, j requires 0 <= j => if Bit(index, j) then f.one else f.zero)
  }

  lemma {:induction false} MixAtBit<F(!new)>(f: Field<F>, lo: F, hi: F)
    requires Ring(f)
    ensures Mix(f, lo, hi, f.zero) == lo && Mix(f, lo, hi, f.one) == hi
  {
    TimesZero(f, f.add(hi, lo));
    Units(f, f.add(hi, lo));
    Comm(f, hi, lo);
    Assoc(f, lo, lo, hi);
    Units(f, lo);
    Units(f, hi);
  }

  /** The slot's own point on the half that contains it. */
  lemma {:induction false} PointSplits<F(!new)>(f: Field<F>, index: nat, n: nat, low: nat)
    requires n > 0 && low < Pow2(n - 1) && (index == low || index == Pow2(n - 1) + low)
    ensures EvalPoint(f, index, n)[..n - 1] == EvalPoint(f, low, n - 1)
    ensures EvalPoint(f, index, n)[n - 1] == if index == low then f.zero else f.one
  {
    TopBit(low, n - 1);
  }

  /** At the point of index `i` the evaluation is entry `i`. */
  lemma {:induction false} EvalAtIndex<F(!new)>(f: Field<F>, evals: seq<F>, index: nat, n: nat)
    requires Ring(f) && |evals| == Pow2(n) && index < Pow2(n)
    ensures Fold(f, evals, EvalPoint(f, index, n)) == evals[index]
    decreases n
  {
    if n == 0 {
    } else {
      var h := Pow2(n - 1);
      var low := if index < h then index else index - h;
      PointSplits(f, index, n, low);
      MixAtBit(f, evals[low], evals[low + h]);
      EvalAtIndex(f, FoldOnce(f, evals, EvalPoint(f, index, n)[n - 1]), low, n - 1);
    }
  }

  // Padding.

  /** `pad_column_borrowed`: extend a short column with zeros. */
  function PadColumn<F>(f: Field<F>, column: seq<F>, n: nat): (padded: seq<F>)
    ensures |column| < n ==> |padded| == n
    ensures |column| >= n ==> padded == column
    ensures column <= padded
  {
    if |column| < n then column + seq(n - |column|, i => f.zero) else column
  }

  function Zeros<F>(f: Field<F>, k: nat): seq<F> {
    seq(k, i => f.zero)
  }

  lemma {:induction false} FoldAtZero<F(!new)>(f: Field<F>, evals: seq<F>)
    requires Ring(f)
    ensures FoldOnce(f, evals, f.zero) == evals[..|evals| / 2]
  {
    var h := |evals| / 2;
    forall i | 0 <= i < h
      ensures Mix(f, evals[i], evals[i + h], f.zero) == evals[i]
    {
      MixAtBit(f, evals[i], evals[i + h]);
    }
  }

  /** Variables set to zero ignore everything beyond the original column. */
  lemma {:induction false} ZeroVariablesDrop<F(!new)>(f: Field<F>, long: seq<F>, column: seq<F>, point: seq<F>, k: nat)
    requires Ring(f) && |column| == Pow2(|point|) && column <= long && |long| == Pow2(|point| + k)
    ensures Fold(f, long, point + Zeros(f, k)) == Fold(f, column, point)
    decreases k
  {
    var padded := point + Zeros(f, k);
    if k == 0 {
      assert padded == point && long == column;
    } else {
      assert padded[..|padded| - 1] == point + Zeros(f, k - 1) && padded[|padded| - 1] == f.zero;
      FoldAtZero(f, long);
      Pow2Monotone(|point|, |point| + k - 1);
      ZeroVariablesDrop(f, long[..|long| / 2], column, point, k - 1);
    }
  }

  /** Zero padding is invisible: the padded column at the padded point is the column at the point. */
  lemma {:induction false} PaddingInvisible<F(!new)>(f: Field<F>, column: seq<F>, point: seq<F>, k: nat)
    requires Ring(f) && |column| == Pow2(|point|)
    ensures |PadColumn(f, column, Pow2(|point| + k))| == Pow2(|point| + k)
    ensures Fold(f, PadColumn(f, column, Pow2(|point| + k)), point + Zeros(f, k)) == Fold(f, column, point)
  {
    Pow2Monotone(|point|, |point| + k);
    ZeroVariablesDrop(f, PadColumn(f, column, Pow2(|point| + k)), column, point, k);
  }
}
