/**
 * The pairwise part of the somatic-interaction tool: the nested loops over
 * the top genes, the 2x2 contingency table of each pair, Fisher's exact test
 * on it and the co-occurrence / mutual-exclusivity call from its odds ratio.
 * Fisher's exact test itself is a library routine on floating point numbers;
 * it is a parameter here (`Fisher`), and `ScipyOddsRatio` states the odds
 * ratio SciPy's implementation returns, as an independent reference.
 */
module PairTesting {
  import opened MafTable

  /** Positions (i, j) into the list of top genes. */
  datatype Pair = Pair(i: nat, j: nat)

  /** The pairs (i, lo), ..., (i, hi - 1) that one pass of the inner loop visits. */
  function Span(i: nat, lo: nat, hi: nat): (ps: seq<Pair>)
    ensures |ps| == if lo <= hi then hi - lo else 0
    ensures forall t :: 0 <= t < |ps| ==> ps[t] == Pair(i, lo + t)
    decreases hi
  {
    if hi <= lo then [] else Span(i, lo, hi - 1) + [Pair(i, hi - 1)]
  }

  /** The pairs the loops over `k` genes have visited before outer round `i`. */
  function PairsBefore(i: nat, k: nat): seq<Pair>
    decreases i
  {
    if i == 0 then [] else PairsBefore(i - 1, k) + Span(i - 1, i, k)
  }

  /** Every pair the loops over `k` genes visit, in visiting order. */
  function Pairs(k: nat): seq<Pair> {
    PairsBefore(k, k)
  }

  /** Lexicographic order on pairs. */
  predicate Before(p: Pair, q: Pair) {
    p.i < q.i || (p.i == q.i && p.j < q.j)
  }

  predicate StrictlyOrdered(ps: seq<Pair>) {
    forall a, b :: 0 <= a < b < |ps| ==> Before(ps[a], ps[b])
  }

  /** Both positions of every pair index a list of `k` genes. */
  predicate InRange(ps: seq<Pair>, k: nat) {
    forall p :: p in ps ==> p.i < k && p.j < k
  }

  lemma SpanMembers(i: nat, lo: nat, hi: nat)
    ensures forall p :: p in Span(i, lo, hi) <==> p.i == i && lo <= p.j < hi
  {
    var ps := Span(i, lo, hi);
    forall p: Pair | p.i == i && lo <= p.j < hi ensures p in ps {
      assert ps[p.j - lo] == p;
    }
  }

  /** Before round `i`, the loops have visited exactly the pairs (a, b) with a < i and a < b < k. */
  lemma {:induction false} PairsBeforeMembers(i: nat, k: nat)
    ensures forall p :: p in PairsBefore(i, k) <==> p.i < i && p.i < p.j < k
  {
    if i > 0 {
      PairsBeforeMembers(i - 1, k);
      SpanMembers(i - 1, i, k);
    }
  }

  /** The loops visit each pair (i, j) with i < j < k, and nothing else. */
  lemma PairsMembers(k: nat)
    ensures forall p :: p in Pairs(k) <==> p.i < p.j < k
  {
    PairsBeforeMembers(k, k);
  }

  lemma PairsInRange(i: nat, k: nat)
    ensures InRange(PairsBefore(i, k), k)
  {
    PairsBeforeMembers(i, k);
  }

  /** Two ordered runs, every pair of the first before every pair of the second, make an ordered run. */
  lemma ConcatOrdered(left: seq<Pair>, right: seq<Pair>)
    requires StrictlyOrdered(left) && StrictlyOrdered(right)
    requires forall p, q :: p in left && q in right ==> Before(p, q)
    ensures StrictlyOrdered(left + right)
  {
    var ps := left + right;
    forall a, b | 0 <= a < b < |ps| ensures Before(ps[a], ps[b]) {
      if b < |left| {
        assert ps[a] == left[a] && ps[b] == left[b];
      } else if a < |left| {
        assert ps[a] == left[a] && ps[b] == right[b - |left|];
      } else {
        assert ps[a] == right[a - |left|] && ps[b] == right[b - |left|];
      }
    }
  }

  /** The visiting order is strictly lexicographic, so no pair is visited twice. */
  lemma {:induction false} PairsBeforeOrdered(i: nat, k: nat)
    ensures StrictlyOrdered(PairsBefore(i, k))
  {
    if i > 0 {
      PairsBeforeOrdered(i - 1, k);
      PairsBeforeMembers(i - 1, k);
      SpanMembers(i - 1, i, k);
      ConcatOrdered(PairsBefore(i - 1, k), Span(i - 1, i, k));
    }
  }

  lemma PairsOrdered(k: nat)
    ensures StrictlyOrdered(Pairs(k))
  {
    PairsBeforeOrdered(k, k);
  }

  /** Twice the number of pairs visited before round `i`. */
  lemma {:induction false} PairsBeforeCount(i: nat, k: nat)
    requires i <= k
    ensures 2 * |PairsBefore(i, k)| == i * (2 * k - i - 1)
  {
    if i > 0 {
      PairsBeforeCount(i - 1, k);
      assert |PairsBefore(i, k)| == |PairsBefore(i - 1, k)| + (k - i);
      RoundCount(i, k);
    }
  }

  /** The arithmetic step of `PairsBeforeCount`: one more round adds k - i pairs. */
  lemma RoundCount(i: int, k: int)
    ensures (i - 1) * (2 * k - i) + 2 * (k - i) == i * (2 * k - i - 1)
  {
    assert (i - 1) * (2 * k - i) == i * (2 * k - i) - (2 * k - i);
    assert i * (2 * k - i - 1) == i * (2 * k - i) - i;
  }

  /** `k` genes give k*(k-1)/2 pairs. */
  lemma PairsCount(k: nat)
    ensures |Pairs(k)| == k * (k - 1) / 2
  {
    PairsBeforeCount(k, k);
  }

  /** The 2x2 table of one gene pair over the cohort of samples. */
  datatype Contingency = Contingency(n11: int, n10: int, n01: int, n00: int)

  /** How two subsets of a cohort cut it into four disjoint parts. */
  lemma Partition(all: set<string>, a: set<string>, b: set<string>)
    requires a <= all && b <= all
    ensures |a * b| + |a - b| == |a|
    ensures |a * b| + |b - a| == |b|
    ensures |all - (a + b)| == |all| - |a * b| - |a - b| - |b - a|
  {
    assert a == (a * b) + (a - b) && (a * b) !! (a - b);
    assert b == (a * b) + (b - a) && (a * b) !! (b - a);
    assert a + b == (a * b) + (a - b) + (b - a) && (a - b) !! (b - a);
    assert all == (all - (a + b)) + (a + b) && (all - (a + b)) !! (a + b);
  }

  /**
   * Samples mutated in both genes, only in the first, only in the second, and
   * the rest of the cohort, as the loop body counts them.
   */
  function Tabulate(rs: seq<Record>, gene1: string, gene2: string): Contingency
  {
    var a := MutatedSamples(rs, gene1);
    var b := MutatedSamples(rs, gene2);
    var n11 := |a * b|;
    var n10 := |a - b|;
    var n01 := |b - a|;
    Contingency(n11, n10, n01, |Samples(rs)| - n11 - n10 - n01)
  }

  /**
   * The four counts split the cohort: the first two add up to the first
   * gene's mutated samples, n11 and n01 to the second's, and n00 counts the
   * samples mutated in neither, so it is never negative.
   */
  lemma TabulateCounts(rs: seq<Record>, gene1: string, gene2: string)
    ensures Tabulate(rs, gene1, gene2).n11 + Tabulate(rs, gene1, gene2).n10 == |MutatedSamples(rs, gene1)|
    ensures Tabulate(rs, gene1, gene2).n11 + Tabulate(rs, gene1, gene2).n01 == |MutatedSamples(rs, gene2)|
    ensures Tabulate(rs, gene1, gene2).n00 >= 0
    ensures Tabulate(rs, gene1, gene2).n00 ==
      |Samples(rs) - (MutatedSamples(rs, gene1) + MutatedSamples(rs, gene2))|
    ensures Tabulate(rs, gene1, gene2).n11 + Tabulate(rs, gene1, gene2).n10 +
      Tabulate(rs, gene1, gene2).n01 + Tabulate(rs, gene1, gene2).n00 == |Samples(rs)|
  {
    MutatedSamplesInCohort(rs, gene1);
    MutatedSamplesInCohort(rs, gene2);
    Partition(Samples(rs), MutatedSamples(rs, gene1), MutatedSamples(rs, gene2));
  }

  /** Swapping the genes keeps n11 and n00 and exchanges n10 with n01. */
  lemma TabulateSwap(rs: seq<Record>, gene1: string, gene2: string)
    ensures Tabulate(rs, gene2, gene1) ==
      Contingency(Tabulate(rs, gene1, gene2).n11, Tabulate(rs, gene1, gene2).n01,
                  Tabulate(rs, gene1, gene2).n10, Tabulate(rs, gene1, gene2).n00)
  {
    var a := MutatedSamples(rs, gene1);
    var b := MutatedSamples(rs, gene2);
    assert a * b == b * a;
  }

  /** The table handed to the exact test: `[[n11, n10], [n01, n00]]`. */
  function Layout(c: Contingency): (t: seq<seq<int>>)
    ensures |t| == 2 && |t[0]| == 2 && |t[1]| == 2
    ensures t[0][0] + t[0][1] + t[1][0] + t[1][1] == c.n11 + c.n10 + c.n01 + c.n00
  {
    [[c.n11, c.n10], [c.n01, c.n00]]
  }

  /** The odds ratio as a float: a finite value, infinity, or not-a-number. */
  datatype OddsRatio = Finite(value: real) | PosInfinity | NaN

  /** `oddsratio > 1` on a float: true for infinity, false for not-a-number. */
  predicate ExceedsOne(o: OddsRatio) {
    match o
    case Finite(v) => v > 1.0
    case PosInfinity => true
    case NaN => false
  }

  datatype FisherResult = FisherResult(oddsRatio: OddsRatio, pValue: real)

  /** Fisher's exact test on a 2x2 table. */
  type Fisher = seq<seq<int>> -> FisherResult

  datatype Event = CoOccurrence | MutuallyExclusive

  /** A pair co-occurs when its odds ratio exceeds 1; ties at 1 count as mutually exclusive. */
  function Classify(o: OddsRatio): (e: Event)
    ensures e == CoOccurrence <==> ExceedsOne(o)
  {
    if ExceedsOne(o) then CoOccurrence else MutuallyExclusive
  }

  /**
   * The labels written into the result table, with the source's spelling;
   * each label names one event only, so the `Event` column can be read back.
   */
  function EventName(e: Event): (name: string)
    ensures name == "Co_Occurence" <==> e == CoOccurrence
    ensures name == "Mutually_Exclusive" <==> e == MutuallyExclusive
  {
    match e
    case CoOccurrence => "Co_Occurence"
    case MutuallyExclusive => "Mutually_Exclusive"
  }

  lemma OddsRatioOneIsMutuallyExclusive()
    ensures Classify(Finite(1.0)) == MutuallyExclusive
    ensures Classify(NaN) == MutuallyExclusive
  {
  }

  /** One result row: `[gene1, gene2, pValue, oddsRatio, 00, 01, 11, 10, Event]`. */
  datatype PairResult = PairResult(gene1: string, gene2: string, pValue: real, oddsRatio: OddsRatio,
                                   n00: int, n01: int, n11: int, n10: int, event: Event)

  /** The row the loop body produces for genes `gene1`, `gene2`. */
  function TestPair(rs: seq<Record>, gene1: string, gene2: string, fisher: Fisher): (row: PairResult)
    ensures row.gene1 == gene1 && row.gene2 == gene2
    ensures row.pValue == fisher(Layout(Tabulate(rs, gene1, gene2))).pValue
    ensures row.oddsRatio == fisher(Layout(Tabulate(rs, gene1, gene2))).oddsRatio
    ensures row.event == CoOccurrence <==> ExceedsOne(row.oddsRatio)
  {
    var c := Tabulate(rs, gene1, gene2);
    var f := fisher(Layout(c));
    PairResult(gene1, gene2, f.pValue, f.oddsRatio, c.n00, c.n01, c.n11, c.n10, Classify(f.oddsRatio))
  }

  /**
   * Every row splits the cohort: its four counts are the sizes of the
   * intersection and the two differences of the genes' mutated samples and of
   * the rest, so they are non-negative and add up to the number of samples.
   */
  lemma TestPairCounts(rs: seq<Record>, gene1: string, gene2: string, fisher: Fisher)
    ensures TestPair(rs, gene1, gene2, fisher).n11 == |MutatedSamples(rs, gene1) * MutatedSamples(rs, gene2)|
    ensures TestPair(rs, gene1, gene2, fisher).n10 == |MutatedSamples(rs, gene1) - MutatedSamples(rs, gene2)|
    ensures TestPair(rs, gene1, gene2, fisher).n01 == |MutatedSamples(rs, gene2) - MutatedSamples(rs, gene1)|
    ensures TestPair(rs, gene1, gene2, fisher).n00 ==
      |Samples(rs) - (MutatedSamples(rs, gene1) + MutatedSamples(rs, gene2))|
    ensures TestPair(rs, gene1, gene2, fisher).n00 + TestPair(rs, gene1, gene2, fisher).n01 +
      TestPair(rs, gene1, gene2, fisher).n11 + TestPair(rs, gene1, gene2, fisher).n10 == |Samples(rs)|
  {
    TabulateCounts(rs, gene1, gene2);
  }

  /** The loop body as a function of the two genes. */
  type PairTest = (string, string) -> PairResult

  /** The loop body over table `rs` with exact test `fisher`. */
  function RowTest(rs: seq<Record>, fisher: Fisher): PairTest {
    (gene1, gene2) => TestPair(rs, gene1, gene2, fisher)
  }

  /** The rows for the pairs `ps` of positions into `top`, in order. */
  function Rows(top: seq<string>, ps: seq<Pair>, test: PairTest): seq<PairResult>
    requires InRange(ps, |top|)
  {
    seq(|ps|, t requires 0 <= t < |ps| => (assert ps[t] in ps; test(top[ps[t].i], top[ps[t].j])))
  }

  lemma RowsSnoc(top: seq<string>, ps: seq<Pair>, p: Pair, test: PairTest)
    requires InRange(ps, |top|) && p.i < |top| && p.j < |top|
    ensures InRange(ps + [p], |top|)
    ensures Rows(top, ps + [p], test) == Rows(top, ps, test) + [test(top[p.i], top[p.j])]
  {
    var qs := ps + [p];
    assert forall t :: 0 <= t < |ps| ==> qs[t] == ps[t];
  }

  lemma RowsAppend(top: seq<string>, a: seq<Pair>, b: seq<Pair>, test: PairTest)
    requires InRange(a, |top|) && InRange(b, |top|)
    ensures InRange(a + b, |top|)
    ensures Rows(top, a + b, test) == Rows(top, a, test) + Rows(top, b, test)
  {
    var ab := a + b;
    assert forall t :: 0 <= t < |a| ==> ab[t] == a[t];
    assert forall t :: |a| <= t < |ab| ==> ab[t] == b[t - |a|];
  }

  /** The rows the inner loop of round `i` has produced once it reaches `j`. */
  function RoundRows(top: seq<string>, i: nat, j: nat, test: PairTest): seq<PairResult>
    requires i < |top| && j <= |top|
    decreases j
  {
    if j <= i + 1 then [] else RoundRows(top, i, j - 1, test) + [test(top[i], top[j - 1])]
  }

  /** The rows the outer loop has produced before round `i`. */
  function RowsBefore(top: seq<string>, i: nat, test: PairTest): seq<PairResult>
    requires i <= |top|
  {
    if i == 0 then [] else RowsBefore(top, i - 1, test) + RoundRows(top, i - 1, |top|, test)
  }

  lemma {:induction false} RoundRowsArePairRows(top: seq<string>, i: nat, j: nat, test: PairTest)
    requires i < |top| && j <= |top|
    ensures InRange(Span(i, i + 1, j), |top|)
    ensures RoundRows(top, i, j, test) == Rows(top, Span(i, i + 1, j), test)
    decreases j
  {
    if j > i + 1 {
      RoundRowsArePairRows(top, i, j - 1, test);
      assert Span(i, i + 1, j) == Span(i, i + 1, j - 1) + [Pair(i, j - 1)];
      assert RoundRows(top, i, j, test) == RoundRows(top, i, j - 1, test) + [test(top[i], top[j - 1])];
      RowsSnoc(top, Span(i, i + 1, j - 1), Pair(i, j - 1), test);
    } else {
      assert Span(i, i + 1, j) == [];
    }
  }

  lemma {:induction false} RowsBeforeArePairRows(top: seq<string>, i: nat, test: PairTest)
    requires i <= |top|
    ensures InRange(PairsBefore(i, |top|), |top|)
    ensures RowsBefore(top, i, test) == Rows(top, PairsBefore(i, |top|), test)
  {
    PairsInRange(i, |top|);
    if i > 0 {
      PairsInRange(i - 1, |top|);
      RowsBeforeArePairRows(top, i - 1, test);
      RoundRowsArePairRows(top, i - 1, |top|, test);
      RowsAppend(top, PairsBefore(i - 1, |top|), Span(i - 1, i, |top|), test);
    }
  }

  /**
   * The nested loops over the top genes: one row per pair of positions
   * i < j, in loop order, k*(k-1)/2 rows for k genes.
   */
  method TestPairs(top: seq<string>, test: PairTest) returns (results: seq<PairResult>)
    ensures InRange(Pairs(|top|), |top|)
    ensures results == Rows(top, Pairs(|top|), test)
    ensures |results| == |top| * (|top| - 1) / 2
  {
    var k := |top|;
    results := [];
    for i := 0 to k
      invariant results == RowsBefore(top, i, test)
    {
      for j := i + 1 to k
        invariant results == RowsBefore(top, i, test) + RoundRows(top, i, j, test)
      {
        var row := test(top[i], top[j]);
        assert RoundRows(top, i, j + 1, test) == RoundRows(top, i, j, test) + [row];
        results := results + [row];
      }
    }
    RowsBeforeArePairRows(top, k, test);
    PairsCount(k);
  }

  /** No row pairs a gene with itself, and no two rows name the same two genes in either order. */
  predicate DistinctGenePairs(rows: seq<PairResult>) {
    (forall t :: 0 <= t < |rows| ==> rows[t].gene1 != rows[t].gene2) &&
    (forall t, u :: 0 <= t < u < |rows| ==>
      !(rows[t].gene1 == rows[u].gene1 && rows[t].gene2 == rows[u].gene2) &&
      !(rows[t].gene1 == rows[u].gene2 && rows[t].gene2 == rows[u].gene1))
  }

  /** Some row names `gene1` and `gene2`, in that order. */
  predicate HasRow(rows: seq<PairResult>, gene1: string, gene2: string) {
    exists t :: 0 <= t < |rows| && rows[t].gene1 == gene1 && rows[t].gene2 == gene2
  }

  /** Every two genes of `top` have a row, the earlier one as `gene1`. */
  predicate CoversAllPairs(top: seq<string>, rows: seq<PairResult>) {
    forall a, b :: 0 <= a < b < |top| ==> HasRow(rows, top[a], top[b])
  }

  lemma PositionsToDistinctGenes(top: seq<string>, ps: seq<Pair>, rows: seq<PairResult>)
    requires NoDuplicates(top)
    requires StrictlyOrdered(ps) && forall p :: p in ps ==> p.i < p.j < |top|
    requires |rows| == |ps|
    requires forall t :: 0 <= t < |ps| ==> rows[t].gene1 == top[ps[t].i] && rows[t].gene2 == top[ps[t].j]
    ensures DistinctGenePairs(rows)
  {
    forall t | 0 <= t < |rows| ensures rows[t].gene1 != rows[t].gene2 {
      assert ps[t] in ps;
    }
    forall t, u | 0 <= t < u < |rows|
      ensures !(rows[t].gene1 == rows[u].gene1 && rows[t].gene2 == rows[u].gene2)
      ensures !(rows[t].gene1 == rows[u].gene2 && rows[t].gene2 == rows[u].gene1)
    {
      var p, q := ps[t], ps[u];
      assert p in ps && q in ps && Before(p, q);
      assert top[p.i] != top[q.j];
      if p.i != q.i {
        assert top[p.i] != top[q.i];
      } else {
        assert top[p.j] != top[q.j];
      }
    }
  }

  lemma PositionsToAllGenePairs(top: seq<string>, ps: seq<Pair>, rows: seq<PairResult>)
    requires forall p: Pair :: p in ps <==> p.i < p.j < |top|
    requires |rows| == |ps|
    requires forall t :: 0 <= t < |ps| ==> rows[t].gene1 == top[ps[t].i] && rows[t].gene2 == top[ps[t].j]
    ensures CoversAllPairs(top, rows)
  {
    forall a, b | 0 <= a < b < |top| ensures HasRow(rows, top[a], top[b]) {
      var p := Pair(a, b);
      assert p in ps;
      var t :| 0 <= t < |ps| && ps[t] == p;
      assert rows[t].gene1 == top[a] && rows[t].gene2 == top[b];
    }
  }

  /**
   * With distinct top genes, the rows pair distinct genes, no two rows name
   * the same two genes, and every two top genes have a row.
   */
  lemma GenePairsDistinct(rs: seq<Record>, top: seq<string>, fisher: Fisher)
    requires NoDuplicates(top)
    ensures InRange(Pairs(|top|), |top|)
    ensures DistinctGenePairs(Rows(top, Pairs(|top|), RowTest(rs, fisher)))
    ensures CoversAllPairs(top, Rows(top, Pairs(|top|), RowTest(rs, fisher)))
  {
    var ps := Pairs(|top|);
    PairsMembers(|top|);
    PairsOrdered(|top|);
    var rows := Rows(top, ps, RowTest(rs, fisher));
    assert forall t :: 0 <= t < |ps| ==> ps[t] in ps;
    forall t | 0 <= t < |ps| ensures rows[t].gene1 == top[ps[t].i] && rows[t].gene2 == top[ps[t].j] {
      assert rows[t] == TestPair(rs, top[ps[t].i], top[ps[t].j], fisher);
    }
    PositionsToDistinctGenes(top, ps, rows);
    PositionsToAllGenePairs(top, ps, rows);
  }

  /** Every margin of the table is positive. */
  predicate MarginsPositive(c: Contingency) {
    c.n11 + c.n10 > 0 && c.n01 + c.n00 > 0 && c.n11 + c.n01 > 0 && c.n10 + c.n00 > 0
  }

  /**
   * The odds ratio SciPy's `fisher_exact` returns on a 2x2 table: not-a-number
   * when a row or column sums to zero, otherwise t00*t11 / (t10*t01), or
   * infinity when that denominator is zero.
   */
  function ScipyOddsRatio(t: seq<seq<int>>): OddsRatio
    requires |t| == 2 && |t[0]| == 2 && |t[1]| == 2
  {
    if t[0][0] + t[1][0] == 0 || t[0][1] + t[1][1] == 0 || t[0][0] + t[0][1] == 0 || t[1][0] + t[1][1] == 0 then NaN
    else if t[1][0] > 0 && t[0][1] > 0 then Finite((t[0][0] * t[1][1]) as real / (t[1][0] * t[0][1]) as real)
    else PosInfinity
  }

  lemma QuotientExceedsOne(x: int, y: int)
    requires y > 0
    ensures x as real / y as real > 1.0 <==> x > y
  {
    var q := x as real / y as real;
    assert q * y as real == x as real;
  }

  /**
   * With SciPy's odds ratio, a table of counts is called co-occurring exactly
   * when its margins are positive and n11*n00 exceeds n10*n01.
   */
  lemma {:induction false} CrossProductClassification(c: Contingency)
    requires c.n11 >= 0 && c.n10 >= 0 && c.n01 >= 0 && c.n00 >= 0
    ensures Classify(ScipyOddsRatio(Layout(c))) == CoOccurrence <==>
      MarginsPositive(c) && c.n11 * c.n00 > c.n10 * c.n01
  {
    var t := Layout(c);
    assert t[0][0] == c.n11 && t[0][1] == c.n10 && t[1][0] == c.n01 && t[1][1] == c.n00;
    var diagonal := c.n11 * c.n00;
    var offDiagonal := c.n10 * c.n01;
    assert c.n01 * c.n10 == offDiagonal;
    if !MarginsPositive(c) {
      assert ScipyOddsRatio(t) == NaN;
    } else if c.n01 > 0 && c.n10 > 0 {
      assert ScipyOddsRatio(t) == Finite(diagonal as real / offDiagonal as real);
      QuotientExceedsOne(diagonal, offDiagonal);
    } else {
      assert ScipyOddsRatio(t) == PosInfinity;
      assert offDiagonal == 0 by {
        if c.n01 == 0 { assert offDiagonal == c.n10 * 0; } else { assert offDiagonal == 0 * c.n01; }
      }
      assert c.n11 > 0 && c.n00 > 0;
      assert diagonal > 0;
    }
  }

  /**
   * A table with positive margins and a zero off-diagonal cell has an
   * infinite odds ratio, and the pair is called co-occurring.
   */
  lemma InfiniteOddsCoOccur(c: Contingency)
    requires c.n11 >= 0 && c.n10 >= 0 && c.n01 >= 0 && c.n00 >= 0
    requires MarginsPositive(c) && (c.n10 == 0 || c.n01 == 0)
    ensures ScipyOddsRatio(Layout(c)) == PosInfinity
    ensures Classify(ScipyOddsRatio(Layout(c))) == CoOccurrence
  {
    var t := Layout(c);
    assert t[0][1] == c.n10 && t[1][0] == c.n01;
  }

  /**
   * A table whose off-diagonal cells are positive and whose diagonal has a
   * zero cell has odds ratio 0, and the pair is called mutually exclusive.
   */
  lemma ZeroOddsMutuallyExclusive(c: Contingency)
    requires c.n11 >= 0 && c.n00 >= 0
    requires c.n10 > 0 && c.n01 > 0 && (c.n11 == 0 || c.n00 == 0)
    ensures ScipyOddsRatio(Layout(c)) == Finite(0.0)
    ensures Classify(ScipyOddsRatio(Layout(c))) == MutuallyExclusive
  {
    var t := Layout(c);
    assert t[0][0] == c.n11 && t[0][1] == c.n10 && t[1][0] == c.n01 && t[1][1] == c.n00;
    assert c.n11 * c.n00 == 0;
  }
}
