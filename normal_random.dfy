/**
 * NormalRandomGenerator: a discrete sampler over the integers [Min, Max). The
 * constructor tabulates the running sum of a probability density over that
 * range; Next maps one uniform draw onto the range of the table and returns
 * the first integer whose running sum reaches it.
 *
 * The density (calculatePdf, which uses exp and sqrt with the Mean and
 * StandardDeviation in force at construction) is a parameter `pdf`, and the
 * uniform draw of Next is a parameter `u`.
 */
module NormalRandom {
  import opened Geometry
  import opened Wrappers

  /** Mean = ((max - min) / 2) + min with C#'s integer division. */
  function InitialMean(min: int, max: int): (m: int)
    ensures min <= max ==> min <= m <= max
    ensures min <= max ==> m - min <= max - m <= m - min + 1
  {
    TruncDiv(max - min, 2) + min
  }

  /** Entry i of the table: pdf(min) + ... + pdf(i). */
  function Cumulative(pdf: int -> real, min: int, i: int): (c: real)
    requires min <= i
    decreases i - min
  {
    if i == min then pdf(i) else pdf(i) + Cumulative(pdf, min, i - 1)
  }

  /** The whole table: keys min .. max - 1, each mapped to its running sum. */
  function Table(pdf: int -> real, min: int, max: int): (t: map<int, real>)
    ensures forall i :: i in t <==> min <= i < max
  {
    map i | min <= i < max :: Cumulative(pdf, min, i)
  }

  /** The smallest of the entries min .. i (Values.Min over a prefix of the table). */
  function TableMin(pdf: int -> real, min: int, i: int): real
    requires min <= i
    decreases i - min
  {
    if i == min then Cumulative(pdf, min, i)
    else
      var rest := TableMin(pdf, min, i - 1);
      if Cumulative(pdf, min, i) < rest then Cumulative(pdf, min, i) else rest
  }

  /** The largest of the entries min .. i (Values.Max over a prefix of the table). */
  function TableMax(pdf: int -> real, min: int, i: int): real
    requires min <= i
    decreases i - min
  {
    if i == min then Cumulative(pdf, min, i)
    else
      var rest := TableMax(pdf, min, i - 1);
      if Cumulative(pdf, min, i) > rest then Cumulative(pdf, min, i) else rest
  }

  /** TableMin is a lower bound of the entries min .. i and is one of them. */
  lemma {:induction false} TableMinIsMinimum(pdf: int -> real, min: int, i: int)
    requires min <= i
    ensures forall k :: min <= k <= i ==> TableMin(pdf, min, i) <= Cumulative(pdf, min, k)
    ensures exists k :: min <= k <= i && TableMin(pdf, min, i) == Cumulative(pdf, min, k)
    decreases i - min
  {
    if i > min {
      TableMinIsMinimum(pdf, min, i - 1);
      var k :| min <= k <= i - 1 && TableMin(pdf, min, i - 1) == Cumulative(pdf, min, k);
      if Cumulative(pdf, min, i) < TableMin(pdf, min, i - 1) {
        assert TableMin(pdf, min, i) == Cumulative(pdf, min, i);
      } else {
        assert TableMin(pdf, min, i) == Cumulative(pdf, min, k);
      }
    } else {
      assert TableMin(pdf, min, i) == Cumulative(pdf, min, min);
    }
  }

  /** TableMax is an upper bound of the entries min .. i and is one of them. */
  lemma {:induction false} TableMaxIsMaximum(pdf: int -> real, min: int, i: int)
    requires min <= i
    ensures forall k :: min <= k <= i ==> Cumulative(pdf, min, k) <= TableMax(pdf, min, i)
    ensures exists k :: min <= k <= i && TableMax(pdf, min, i) == Cumulative(pdf, min, k)
    decreases i - min
  {
    if i > min {
      TableMaxIsMaximum(pdf, min, i - 1);
      var k :| min <= k <= i - 1 && TableMax(pdf, min, i - 1) == Cumulative(pdf, min, k);
      if Cumulative(pdf, min, i) > TableMax(pdf, min, i - 1) {
        assert TableMax(pdf, min, i) == Cumulative(pdf, min, i);
      } else {
        assert TableMax(pdf, min, i) == Cumulative(pdf, min, k);
      }
    } else {
      assert TableMax(pdf, min, i) == Cumulative(pdf, min, min);
    }
  }

  predicate NonNegativeOn(pdf: int -> real, min: int, max: int) {
    forall i :: min <= i < max ==> pdf(i) >= 0.0
  }

  /** With a non-negative density each running sum is at least its own entry's density, so non-negative. */
  lemma {:induction false} CumulativeAtLeastDensity(pdf: int -> real, min: int, i: int)
    requires min <= i && NonNegativeOn(pdf, min, i + 1)
    ensures 0.0 <= pdf(i) <= Cumulative(pdf, min, i)
    decreases i - min
  {
    if i > min {
      CumulativeAtLeastDensity(pdf, min, i - 1);
    }
  }

  /** With a non-negative density the running sums never decrease. */
  lemma {:induction false} CumulativeMonotone(pdf: int -> real, min: int, i: int, j: int)
    requires min <= i <= j
    requires NonNegativeOn(pdf, min, j + 1)
    ensures Cumulative(pdf, min, i) <= Cumulative(pdf, min, j)
    decreases j - i
  {
    if i < j {
      CumulativeMonotone(pdf, min, i, j - 1);
    }
  }

  /** ... so the smallest entry is the first one and the largest the last one. */
  lemma ExtremesAreEnds(pdf: int -> real, min: int, max: int)
    requires min < max && NonNegativeOn(pdf, min, max)
    ensures TableMin(pdf, min, max - 1) == Cumulative(pdf, min, min)
    ensures TableMax(pdf, min, max - 1) == Cumulative(pdf, min, max - 1)
  {
    TableMinIsMinimum(pdf, min, max - 1);
    TableMaxIsMaximum(pdf, min, max - 1);
    var lo := TableMin(pdf, min, max - 1);
    var k :| min <= k <= max - 1 && lo == Cumulative(pdf, min, k);
    CumulativeMonotone(pdf, min, min, k);
    var hi := TableMax(pdf, min, max - 1);
    var k' :| min <= k' <= max - 1 && hi == Cumulative(pdf, min, k');
    CumulativeMonotone(pdf, min, k', max - 1);
  }

  /** The value Next compares the table with: the draw scaled to the table's range, minus its minimum. */
  function PickedProb(u: real, lo: real, hi: real): (p: real)
    ensures 0.0 <= u <= 1.0 && lo <= hi ==> -lo <= p <= hi - 2.0 * lo
  {
    var spread := u * (hi - lo);
    if 0.0 <= u <= 1.0 && lo <= hi then
      var w := hi - lo;
      assert 0.0 <= spread <= w by {
        MulUnitBounds(w, u);
        assert spread == w * u;
      }
      spread - lo
    else
      spread - lo
  }

  /**
   * With a non-negative density and a draw in [0, 1], the picked value never
   * exceeds the last entry, so Next always finds an integer.
   */
  lemma PickedWithinTable(pdf: int -> real, min: int, max: int, u: real)
    requires min < max && NonNegativeOn(pdf, min, max) && 0.0 <= u <= 1.0
    ensures PickedProb(u, TableMin(pdf, min, max - 1), TableMax(pdf, min, max - 1))
            <= Cumulative(pdf, min, max - 1)
  {
    ExtremesAreEnds(pdf, min, max);
    var lo, hi := TableMin(pdf, min, max - 1), TableMax(pdf, min, max - 1);
    assert lo == pdf(min) && lo >= 0.0;
    CumulativeMonotone(pdf, min, min, max - 1);
    ScaledDrawBelow(u, lo, hi);
  }

  lemma ScaledDrawBelow(u: real, lo: real, hi: real)
    requires 0.0 <= u <= 1.0 && 0.0 <= lo <= hi
    ensures PickedProb(u, lo, hi) <= hi
  {
    var d := hi - lo;
    MulUnitBounds(d, u);
    assert u * d == d * u;
  }

  class NormalRandomGenerator {
    const Min: int
    const Max: int
    var StandardDeviation: real
    var Mean: real
    /** calculatePdf as it stood when the table was built. */
    const pdf: int -> real
    var maxToGenerateForProbability: real
    var minToGenerateForProbability: real
    /** Key is x, value is the running sum of the density up to x. */
    var probabilities: map<int, real>

    /** The table is the running sum over [Min, Max) and the two bounds are its extremes. */
    predicate Valid()
      reads this
    {
      Min < Max &&
      probabilities == Table(pdf, Min, Max) &&
      minToGenerateForProbability == TableMin(pdf, Min, Max - 1) &&
      maxToGenerateForProbability == TableMax(pdf, Min, Max - 1)
    }

    /**
     * The constructor: the integer mean, the given standard deviation, then
     * one loop writing pdf(i) plus the previous entry into the table, then the
     * smallest and largest value of the table. An empty range (min >= max)
     * makes Values.Min() throw; Create below models that case.
     */
    constructor (min: int, max: int, standardDeviation: real, pdf: int -> real)
      requires min < max
      ensures Valid()
      ensures Min == min && Max == max && this.pdf == pdf
      ensures Mean == InitialMean(min, max) as real && StandardDeviation == standardDeviation
    {
      Min := min;
      Max := max;
      Mean := (TruncDiv(max - min, 2) + min) as real;
      StandardDeviation := standardDeviation;
      this.pdf := pdf;
      var table := BuildTable(min, max, pdf);
      probabilities := table;
      var lo, hi := TableExtremes(min, max, pdf, table);
      minToGenerateForProbability := lo;
      maxToGenerateForProbability := hi;
    }

    /** The constructor's first loop: entry i is pdf(i) plus entry i - 1. */
    static method BuildTable(min: int, max: int, pdf: int -> real) returns (table: map<int, real>)
      requires min < max
      ensures table == Table(pdf, min, max)
    {
      table := map[];
      var i := min;
      while i < max
        invariant min <= i <= max
        invariant table == Table(pdf, min, i)
      {
        assert Table(pdf, min, i + 1) == Table(pdf, min, i)[i := Cumulative(pdf, min, i)];
        table := table[i := pdf(i)];
        if i - 1 >= min {
          table := table[i := table[i] + table[i - 1]];
        }
        i := i + 1;
      }
    }

    /** The constructor's second loop: Values.Min() and Values.Max() of the table. */
    static method TableExtremes(min: int, max: int, pdf: int -> real, table: map<int, real>)
      returns (lo: real, hi: real)
      requires min < max && table == Table(pdf, min, max)
      ensures lo == TableMin(pdf, min, max - 1) && hi == TableMax(pdf, min, max - 1)
    {
      lo, hi := table[min], table[min];
      var i := min + 1;
      while i < max
        invariant min + 1 <= i <= max
        invariant lo == TableMin(pdf, min, i - 1) && hi == TableMax(pdf, min, i - 1)
      {
        assert table[i] == Cumulative(pdf, min, i);
        if table[i] < lo {
          lo := table[i];
        }
        if table[i] > hi {
          hi := table[i];
        }
        i := i + 1;
      }
    }

    /** The constructor as a total operation: None for the empty range, where the source throws. */
    static method Create(min: int, max: int, standardDeviation: real, pdf: int -> real)
      returns (g: Option<NormalRandomGenerator>)
      ensures g.None? <==> min >= max
      ensures g.Some? ==> fresh(g.value) && g.value.Valid() && g.value.Min == min && g.value.Max == max
    {
      if min >= max {
        return None;
      }
      var n := new NormalRandomGenerator(min, max, standardDeviation, pdf);
      return Some(n);
    }

    /**
     * Next, with the uniform draw u: the first i in [Min, Max) whose table
     * entry is at least the picked value; None where the source throws
     * InvalidOperationException.
     */
    method Next(u: real) returns (r: Option<int>)
      requires Valid()
      ensures FirstReaching(pdf, Min, Max, PickedProb(u, minToGenerateForProbability, maxToGenerateForProbability), r)
      ensures NonNegativeOn(pdf, Min, Max) && 0.0 <= u <= 1.0 ==> r.Some?
    {
      var pickedProb := PickedProb(u, minToGenerateForProbability, maxToGenerateForProbability);
      var i := Min;
      while i < Max
        invariant Min <= i <= Max
        invariant forall k :: Min <= k < i ==> pickedProb > Cumulative(pdf, Min, k)
      {
        assert probabilities[i] == Cumulative(pdf, Min, i);
        if pickedProb <= probabilities[i] {
          return Some(i);
        }
        assert pickedProb > Cumulative(pdf, Min, i);
        i := i + 1;
      }
      if NonNegativeOn(pdf, Min, Max) && 0.0 <= u <= 1.0 {
        PickedWithinTable(pdf, Min, Max, u);
        assert false;
      }
      return None;
    }

    /** The Mean setter: only Mean changes. */
    method SetMean(m: real)
      modifies this
      ensures Mean == m && StandardDeviation == old(StandardDeviation)
      ensures probabilities == old(probabilities)
      ensures minToGenerateForProbability == old(minToGenerateForProbability)
      ensures maxToGenerateForProbability == old(maxToGenerateForProbability)
    {
      Mean := m;
    }

    /** The StandardDeviation setter: only StandardDeviation changes. */
    method SetStandardDeviation(s: real)
      modifies this
      ensures StandardDeviation == s && Mean == old(Mean)
      ensures probabilities == old(probabilities)
      ensures minToGenerateForProbability == old(minToGenerateForProbability)
      ensures maxToGenerateForProbability == old(maxToGenerateForProbability)
    {
      StandardDeviation := s;
    }
  }

  /**
   * Overriding Mean and StandardDeviation after construction, as the dungeon
   * generator's start-up does, does not change what Next returns: Next reads
   * only the table built by the constructor.
   */
  method OverrideDoesNotChangeNext(g: NormalRandomGenerator, mean: real, sd: real, u: real)
    returns (before: Option<int>, after: Option<int>)
    requires g.Valid()
    modifies g
    ensures before == after
  {
    before := g.Next(u);
    g.SetMean(mean);
    g.SetStandardDeviation(sd);
    after := g.Next(u);
    if before != after {
      FirstReachingUnique(g.pdf, g.Min, g.Max,
        PickedProb(u, g.minToGenerateForProbability, g.maxToGenerateForProbability), before, after);
    }
  }

  /** At most one answer satisfies Next's postcondition. */
  lemma FirstReachingUnique(pdf: int -> real, min: int, max: int, picked: real, a: Option<int>, b: Option<int>)
    requires FirstReaching(pdf, min, max, picked, a) && FirstReaching(pdf, min, max, picked, b)
    ensures a == b
  {
  }

  /** r is the first integer in [min, max) whose running sum reaches picked, or None when none does. */
  predicate FirstReaching(pdf: int -> real, min: int, max: int, picked: real, r: Option<int>) {
    match r
    case Some(i) =>
      min <= i < max && picked <= Cumulative(pdf, min, i) &&
      forall k :: min <= k < i ==> picked > Cumulative(pdf, min, k)
    case None =>
      forall k :: min <= k < max ==> picked > Cumulative(pdf, min, k)
  }
}
