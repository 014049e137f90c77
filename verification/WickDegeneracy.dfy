/** The permutational degeneracy of a term, from the contraction-degree matrix as it is stored. */
module WickDegeneracy {
  import opened Sequences
  import opened WickProblem
  import opened WickDegrees
  import opened WickPhase
  import opened Factorials
  import opened UpperTriangle
  import WickWeights
  import WickState
  import WickClasses

  /** Partitions contract with later ones, and no operator is contracted twice. */
  ghost predicate Consistent(partitions: seq<seq<nat>>, d: multiset<Pair>, contracted: seq<nat>) {
    && |contracted| == |partitions|
    && (forall a, b :: 0 <= b <= a < |partitions| ==> d[(a, b)] == 0)
    && forall a :: 0 <= a < |partitions| ==>
         contracted[a] <= |partitions[a]| && forall b :: 0 <= b < |partitions| ==> d[(a, b)] <= contracted[a]
  }

  ghost function Sizes(partitions: seq<seq<nat>>): (v: seq<nat>)
    ensures |v| == |partitions|
  {
    seq(|partitions|, a requires 0 <= a < |partitions| => |partitions[a]|)
  }

  ghost function Left(partitions: seq<seq<nat>>, contracted: seq<nat>): (v: seq<nat>)
    requires |contracted| == |partitions|
    requires forall a :: 0 <= a < |partitions| ==> contracted[a] <= |partitions[a]|
    ensures |v| == |partitions|
  {
    seq(|partitions|, a requires 0 <= a < |partitions| => |partitions[a]| - contracted[a])
  }

  ghost function Symmetry(partitions: seq<seq<nat>>, d: multiset<Pair>, contracted: seq<nat>): nat
    requires Consistent(partitions, d, contracted)
  {
    FactMatrix(d, |partitions|, |partitions|) * FactVec(Left(partitions, contracted))
  }

  /** r is the fraction num / den. */
  ghost predicate Fraction(r: real, num: nat, den: nat) {
    r * den as real == num as real
  }

  function Scaled(r: real, f: nat): real {
    r * f as real
  }

  lemma RealProduct(a: nat, b: nat)
    ensures (a * b) as real == (a as real) * (b as real)
  {
  }

  lemma Times(r: real, num: nat, den: nat, f: nat)
    requires Fraction(r, num, den)
    ensures Fraction(Scaled(r, f), Product(num, f), den)
  {
    RealProduct(num, f);
    assert (r * f as real) * den as real == (r * den as real) * f as real;
  }

  lemma Over(r: real, num: nat, den: nat, f: nat)
    requires Fraction(r, num, den) && f > 0
    ensures Fraction(r / f as real, num, Product(den, f))
  {
    RealProduct(den, f);
    var q := r / f as real;
    assert q * f as real == r;
    assert q * (den as real * f as real) == (q * f as real) * den as real;
  }

  lemma FractionIs(r: real, num: nat, den: nat)
    requires Fraction(r, num, den) && den > 0
    ensures r == num as real / den as real
  {
  }

  lemma {:induction false} FactRowZero(d: multiset<Pair>, a: nat, k: nat)
    requires forall b :: 0 <= b < k ==> d[(a, b)] <= 1
    ensures FactRow(d, a, k) == 1
  {
    if k > 0 {
      FactRowZero(d, a, k - 1);
      SmallFact(d[(a, k - 1)]);
    }
  }

  lemma SmallFact(n: nat)
    requires n <= 1
    ensures Fact(n) == 1
  {
  }

  ghost function Product(a: nat, b: nat): nat {
    a * b
  }

  lemma FactVecSnoc(v: seq<nat>, i: nat)
    requires i < |v|
    ensures FactVec(v[..i + 1]) == Product(FactVec(v[..i]), Fact(v[i]))
  {
    assert Init(v[..i + 1]) == v[..i];
  }

  /** The next partition's row and its uncontracted operators. */
  lemma NextDenominator(d: multiset<Pair>, i: nat, n: nat, left: seq<nat>)
    requires i < |left|
    ensures Product(FactMatrix(d, i + 1, n), FactVec(left[..i + 1]))
            == Product(Product(Product(FactMatrix(d, i, n), FactVec(left[..i])), FactRow(d, i, n)), Fact(left[i]))
  {
    FactVecSnoc(left, i);
    var a, b, c, e := FactMatrix(d, i, n), FactVec(left[..i]), FactRow(d, i, n), Fact(left[i]);
    Mul3(a, b, c);
    Mul3(a * c, b, e);
  }

  lemma RowStep(d: multiset<Pair>, a: nat, k: nat, x: nat)
    ensures Product(x, FactRow(d, a, k + 1)) == Product(Product(x, FactRow(d, a, k)), Fact(d[(a, k)]))
  {
    Mul3(x, FactRow(d, a, k), Fact(d[(a, k)]));
  }

  lemma ProductOne(x: nat)
    ensures Product(x, 1) == x == Product(1, x)
  {
  }

  /** op_permutational_degeneracy: factors of at most 1 are skipped, and only entries above the diagonal read. */
  method OpPermutationalDegeneracy(partitions: seq<seq<nat>>, opDegrees: seq<nat>, opNContractions: seq<nat>,
                                   ghost d: multiset<Pair>) returns (result: real)
    requires partitions != [] && Consistent(partitions, d, opNContractions)
    requires Holds(opDegrees, |partitions|, (a, b) => d[(a, b)])
    ensures Fraction(result, FactVec(Sizes(partitions)), Symmetry(partitions, d, opNContractions))
  {
    hide Fraction, Fact, FactVec, FactRow, FactMatrix, Holds, Ntri, UptriIdx, Sizes, Left, Product, Scaled, Symmetry;
    result := 1.0;
    var n := |partitions|;
    ghost var sizes, left := Sizes(partitions), Left(partitions, opNContractions);
    StartFraction(d, n, sizes, left);
    for i := 0 to n
      invariant Fraction(result, FactVec(sizes[..i]), Product(FactMatrix(d, i, n), FactVec(left[..i])))
    {
      ghost var den, num := Product(FactMatrix(d, i, n), FactVec(left[..i])), FactVec(sizes[..i + 1]);
      FactVecSnoc(sizes, i);
      NextDenominator(d, i, n, left);
      SizeAt(partitions, opNContractions, i);
      ProductOne(den);
      ProductOne(FactVec(sizes[..i]));
      var size := |partitions[i]|;
      if size > 1 {
        FactRowZero(d, i, i + 1);
        Times(result, FactVec(sizes[..i]), den, Fact(size));
        result := Scaled(result, Fact(size));
        for j := i + 1 to n
          invariant Fraction(result, num, Product(den, FactRow(d, i, j)))
        {
          EntryAt(opDegrees, n, d, i, j);
          var contracted := opDegrees[UptriIdx(i, j, n)];
          RowStep(d, i, j, den);
          ghost var row := Product(den, FactRow(d, i, j));
          if contracted > 1 {
            Over(result, num, row, Fact(contracted));
            result := result / Fact(contracted) as real;
          } else {
            SmallFact(contracted);
            ProductOne(row);
          }
        }
        var noncontracted := size - opNContractions[i];
        ghost var row := Product(den, FactRow(d, i, n));
        if noncontracted > 1 {
          Over(result, num, row, Fact(noncontracted));
          result := result / Fact(noncontracted) as real;
        } else {
          SmallFact(noncontracted);
          ProductOne(row);
        }
      } else {
        FactRowZero(d, i, n);
        SmallFact(size);
        SmallFact(size - opNContractions[i]);
      }
    }
    assert sizes[..n] == sizes && left[..n] == left;
    EndProduct(partitions, d, opNContractions);
  }

  lemma EndProduct(partitions: seq<seq<nat>>, d: multiset<Pair>, contracted: seq<nat>)
    requires Consistent(partitions, d, contracted)
    ensures Product(FactMatrix(d, |partitions|, |partitions|), FactVec(Left(partitions, contracted)))
            == Symmetry(partitions, d, contracted)
  {
  }

  lemma StartFraction(d: multiset<Pair>, n: nat, sizes: seq<nat>, left: seq<nat>)
    ensures Fraction(1.0, FactVec(sizes[..0]), Product(FactMatrix(d, 0, n), FactVec(left[..0])))
  {
  }

  lemma SizeAt(partitions: seq<seq<nat>>, contracted: seq<nat>, i: nat)
    requires |contracted| == |partitions| && i < |partitions|
    requires forall a :: 0 <= a < |partitions| ==> contracted[a] <= |partitions[a]|
    ensures Sizes(partitions)[i] == |partitions[i]| && Left(partitions, contracted)[i] == |partitions[i]| - contracted[i]
  {
  }

  lemma EntryAt(m: seq<nat>, n: nat, d: multiset<Pair>, i: nat, j: nat)
    requires Holds(m, n, (a, b) => d[(a, b)]) && i < j < n
    ensures 0 <= UptriIdx(i, j, n) < |m| && m[UptriIdx(i, j, n)] == d[(i, j)]
  {
  }

  // ---- At a node of the search ----

  lemma {:induction false} NoLowerEntries(p: Problem, s: seq<Pair>, a: nat, b: nat)
    requires WellFormed(p) && IsRun(p, s) && b <= a
    ensures Degrees(p.partitionOf, s)[(a, b)] == 0
  {
    hide WellFormed, PairOk, TopologicallyUnique, ConnectOk, Ends;
    if s != [] {
      NoLowerEntries(p, Init(s), a, b);
      WickState.OkIsAcross(p, Last(s));
      WickState.PairAscends(p, Last(s));
    }
  }

  lemma ContractedBound(p: Problem, s: seq<Pair>, a: nat)
    requires WellFormed(p) && IsRun(p, s) && a < |p.partitions|
    ensures Contracted(p.partitionOf, s, a) <= |p.partitions[a]|
    ensures forall b :: 0 <= b < |p.partitions| ==> Degrees(p.partitionOf, s)[(a, b)] <= Contracted(p.partitionOf, s, a)
  {
    WickClasses.PartsInRange(p);
    MembersOf(p, s, a);
    hide WellFormed, IsRun;
    RunIsSeparate(p, s);
    ContractedSize(p.partitionOf, s, a);
    SubsetSize(ContractedSet(p.partitionOf, s, a), Elems(p.partitions[a]));
    ContractedIsDegree(p.partitionOf, s, a, |p.partitions|);
    forall b | 0 <= b < |p.partitions| ensures Degrees(p.partitionOf, s)[(a, b)] <= Contracted(p.partitionOf, s, a) {
      SumsBound(Degrees(p.partitionOf, s), a, b, |p.partitions|);
    }
  }

  lemma MembersOf(p: Problem, s: seq<Pair>, a: nat)
    requires WellFormed(p) && a < |p.partitions|
    ensures ContractedSet(p.partitionOf, s, a) <= Elems(p.partitions[a])
    ensures |Elems(p.partitions[a])| == |p.partitions[a]|
  {
    NoDupSize(p.partitions[a]);
  }

  lemma CountersConsistent(p: Problem, s: seq<Pair>, contracted: seq<nat>)
    requires WellFormed(p) && IsRun(p, s) && WickState.VectorAt(contracted, |p.partitions|, p.partitionOf, s)
    ensures Consistent(p.partitions, Degrees(p.partitionOf, s), contracted)
    ensures FactVec(Sizes(p.partitions)) == FactVec(WickWeights.PartitionSizes(p))
    ensures Symmetry(p.partitions, Degrees(p.partitionOf, s), contracted) == WickWeights.Denominator(p, s)
  {
    hide WellFormed, IsRun, Degrees, Contracted;
    forall a, b | 0 <= b <= a < |p.partitions| ensures Degrees(p.partitionOf, s)[(a, b)] == 0 {
      NoLowerEntries(p, s, a, b);
    }
    forall a | 0 <= a < |p.partitions|
      ensures contracted[a] == Contracted(p.partitionOf, s, a) <= |p.partitions[a]|
      ensures forall b :: 0 <= b < |p.partitions| ==> Degrees(p.partitionOf, s)[(a, b)] <= contracted[a]
    {
      ContractedBound(p, s, a);
    }
    assert Sizes(p.partitions) == WickWeights.PartitionSizes(p);
    assert Left(p.partitions, contracted) == WickWeights.Uncontracted(p, s);
  }
}
