/**
 * The somatic-interaction tool (`SomaticInteractionsTool._run`): input
 * checks and defaults written into the caller's dictionary, the gene
 * selection, the pair loop, Benjamini-Hochberg adjustment of the p-values,
 * the strict cutoff filter, and the strings the tool returns.
 *
 * Library routines are parameters: the MAF reader (`Load`), Fisher's exact
 * test, `multipletests(..., method="fdr_bh")` and `DataFrame.to_string()`
 * (bundled in `Library`).
 */
module SomaticInteractions {
  import opened Common
  import opened PyStrings
  import opened MafTable
  import opened GeneRanking
  import opened PairTesting

  /** The prefix of the generic error message. */
  const ErrorPrefix := "Error during somatic interaction analysis: "
  const NoneFound := "No significant somatic interactions found."
  const DefaultTopN := 25
  const DefaultCutoff := 0.05

  /** `multipletests(pvalues, method="fdr_bh")[1]`: the corrected p-values, or the raised message. */
  type Adjust = seq<real> -> Result<seq<real>>

  /** A row of `results_df` after the `pAdjust` column is added; `index` is its DataFrame index. */
  datatype AdjustedRow = AdjustedRow(index: nat, row: PairResult, pAdjust: real)

  /** `DataFrame.to_string()` of the filtered rows. */
  type Render = seq<AdjustedRow> -> string

  datatype Library = Library(fisherExact: Fisher, adjustBH: Adjust, render: Render)

  /** The `pValue` column of the result rows. */
  function PValues(rows: seq<PairResult>): (ps: seq<real>)
    ensures |ps| == |rows|
    ensures forall t :: 0 <= t < |rows| ==> ps[t] == rows[t].pValue
  {
    seq(|rows|, t requires 0 <= t < |rows| => rows[t].pValue)
  }

  /** `results_df["pAdjust"] = corrected`: one adjusted value per row, by position. */
  function Attach(rows: seq<PairResult>, corrected: seq<real>): (adjusted: seq<AdjustedRow>)
    requires |corrected| == |rows|
    ensures |adjusted| == |rows|
    ensures forall t :: 0 <= t < |rows| ==> adjusted[t] == AdjustedRow(t, rows[t], corrected[t])
  {
    seq(|rows|, t requires 0 <= t < |rows| => AdjustedRow(t, rows[t], corrected[t]))
  }

  /** DataFrame indices strictly increase along `xs`. */
  predicate IndicesIncrease(xs: seq<AdjustedRow>) {
    forall a, b :: 0 <= a < b < |xs| ==> xs[a].index < xs[b].index
  }

  lemma AttachIndicesIncrease(rows: seq<PairResult>, corrected: seq<real>)
    requires |corrected| == |rows|
    ensures IndicesIncrease(Attach(rows, corrected))
  {
  }

  /** `results_df[results_df["pAdjust"] < cutoff]`: the rows below the cutoff, in their order. */
  function KeepBelow(xs: seq<AdjustedRow>, cutoff: real): (kept: seq<AdjustedRow>)
    ensures |kept| <= |xs|
    ensures forall x :: x in kept <==> x in xs && x.pAdjust < cutoff
  {
    if |xs| == 0 then []
    else
      assert forall x :: x in xs <==> x == xs[0] || x in xs[1..];
      (if xs[0].pAdjust < cutoff then [xs[0]] else []) + KeepBelow(xs[1..], cutoff)
  }

  /** Filtering a concatenation filters each part. */
  lemma {:induction false} KeepBelowAppend(xs: seq<AdjustedRow>, ys: seq<AdjustedRow>, cutoff: real)
    ensures KeepBelow(xs + ys, cutoff) == KeepBelow(xs, cutoff) + KeepBelow(ys, cutoff)
  {
    if |xs| == 0 {
      assert xs + ys == ys;
    } else {
      assert (xs + ys)[0] == xs[0];
      assert (xs + ys)[1..] == xs[1..] + ys;
      KeepBelowAppend(xs[1..], ys, cutoff);
    }
  }

  /** Prefixing a row whose index is below all indices of an increasing run keeps it increasing. */
  lemma ConsIncrease(x: AdjustedRow, ys: seq<AdjustedRow>)
    requires IndicesIncrease(ys) && forall y :: y in ys ==> x.index < y.index
    ensures IndicesIncrease([x] + ys)
  {
    var zs := [x] + ys;
    forall a, b | 0 <= a < b < |zs| ensures zs[a].index < zs[b].index {
      assert zs[b] == ys[b - 1] && zs[b] in ys;
      if a > 0 {
        assert zs[a] == ys[a - 1];
      }
    }
  }

  /** In an increasing run, the head's index is below every later index. */
  lemma HeadBelowRest(xs: seq<AdjustedRow>)
    requires |xs| > 0 && IndicesIncrease(xs)
    ensures IndicesIncrease(xs[1..])
    ensures forall y :: y in xs[1..] ==> xs[0].index < y.index
  {
    var rest := xs[1..];
    forall y | y in rest ensures xs[0].index < y.index {
      var u :| 0 <= u < |rest| && rest[u] == y;
      assert xs[u + 1] == y;
    }
    forall a, b | 0 <= a < b < |rest| ensures rest[a].index < rest[b].index {
      assert rest[a] == xs[a + 1] && rest[b] == xs[b + 1];
    }
  }

  /** The filter keeps the order of the rows: their indices still increase. */
  lemma {:induction false} KeepBelowKeepsOrder(xs: seq<AdjustedRow>, cutoff: real)
    requires IndicesIncrease(xs)
    ensures IndicesIncrease(KeepBelow(xs, cutoff))
  {
    if |xs| > 0 {
      HeadBelowRest(xs);
      KeepBelowKeepsOrder(xs[1..], cutoff);
      if xs[0].pAdjust < cutoff {
        ConsIncrease(xs[0], KeepBelow(xs[1..], cutoff));
      }
    }
  }

  /** The filter keeps nothing exactly when no row lies below the cutoff. */
  lemma KeepBelowEmpty(xs: seq<AdjustedRow>, cutoff: real)
    ensures |KeepBelow(xs, cutoff)| == 0 <==> forall t :: 0 <= t < |xs| ==> xs[t].pAdjust >= cutoff
  {
    if |KeepBelow(xs, cutoff)| != 0 {
      var x := KeepBelow(xs, cutoff)[0];
      assert x in KeepBelow(xs, cutoff);
    } else {
      forall t | 0 <= t < |xs| ensures xs[t].pAdjust >= cutoff {
        assert xs[t] in xs;
      }
    }
  }

  /** Filtering twice with the same cutoff changes nothing. */
  lemma {:induction false} KeepBelowIdempotent(xs: seq<AdjustedRow>, cutoff: real)
    ensures KeepBelow(KeepBelow(xs, cutoff), cutoff) == KeepBelow(xs, cutoff)
  {
    if |xs| > 0 {
      KeepBelowIdempotent(xs[1..], cutoff);
      if xs[0].pAdjust < cutoff {
        var kept := KeepBelow(xs, cutoff);
        assert kept == [xs[0]] + KeepBelow(xs[1..], cutoff);
        assert kept[0] == xs[0] && kept[1..] == KeepBelow(xs[1..], cutoff);
        assert KeepBelow(kept, cutoff) == [kept[0]] + KeepBelow(kept[1..], cutoff);
      } else {
        assert KeepBelow(xs, cutoff) == KeepBelow(xs[1..], cutoff);
      }
    }
  }

  /** A smaller cutoff keeps the rows of a larger one that lie below it. */
  lemma {:induction false} KeepBelowNarrows(xs: seq<AdjustedRow>, low: real, high: real)
    requires low <= high
    ensures KeepBelow(KeepBelow(xs, high), low) == KeepBelow(xs, low)
  {
    if |xs| > 0 {
      KeepBelowNarrows(xs[1..], low, high);
      if xs[0].pAdjust < high {
        var kept := KeepBelow(xs, high);
        assert kept == [xs[0]] + KeepBelow(xs[1..], high);
        assert kept[0] == xs[0] && kept[1..] == KeepBelow(xs[1..], high);
        assert KeepBelow(kept, low) == (if xs[0].pAdjust < low then [xs[0]] else []) + KeepBelow(kept[1..], low);
      } else {
        assert KeepBelow(xs, high) == KeepBelow(xs[1..], high);
        assert KeepBelow(xs, low) == KeepBelow(xs[1..], low);
      }
    }
  }

  /** pandas' message when a column is assigned a list of the wrong length. */
  function LengthMismatch(values: nat, index: nat): string {
    "Length of values (" + Decimal(values) + ") does not match length of index (" + Decimal(index) + ")"
  }

  /**
   * Adjusting the p-values and filtering: the significant rows, or the
   * message of the exception raised on the way.
   */
  function Significant(rows: seq<PairResult>, adjust: Adjust, cutoff: real): Result<seq<AdjustedRow>>
  {
    match adjust(PValues(rows))
    case Raised(message) => Raised(message)
    case Ok(corrected) =>
      if |corrected| != |rows| then Raised(LengthMismatch(|corrected|, |rows|))
      else Ok(KeepBelow(Attach(rows, corrected), cutoff))
  }

  /**
   * When the adjustment succeeds, the significant rows are exactly the rows
   * whose adjusted p-value is strictly below the cutoff, each carrying the
   * adjusted value of its own position, in enumeration order.
   */
  lemma SignificantRows(rows: seq<PairResult>, adjust: Adjust, cutoff: real)
    requires adjust(PValues(rows)).Ok? && |adjust(PValues(rows)).value| == |rows|
    ensures Significant(rows, adjust, cutoff).Ok?
    ensures forall x :: x in Significant(rows, adjust, cutoff).value <==>
      x.index < |rows| && x.row == rows[x.index] &&
      x.pAdjust == adjust(PValues(rows)).value[x.index] && x.pAdjust < cutoff
    ensures IndicesIncrease(Significant(rows, adjust, cutoff).value)
  {
    var corrected := adjust(PValues(rows));
    var adjusted := Attach(rows, corrected.value);
    forall x: AdjustedRow | x.index < |rows| && x.row == rows[x.index] && x.pAdjust == corrected.value[x.index]
      ensures x in adjusted
    {
      assert adjusted[x.index] == x;
    }
    AttachIndicesIncrease(rows, corrected.value);
    KeepBelowKeepsOrder(adjusted, cutoff);
  }

  /** The top genes of the table and the rows of all their pairs, in loop order. */
  function PairRows(rs: seq<Record>, topN: int, fisher: Fisher): seq<PairResult>
  {
    var top := TopGenes(rs, topN);
    PairsInRange(|top|, |top|);
    Rows(top, Pairs(|top|), RowTest(rs, fisher))
  }

  /**
   * The pair rows: k*(k-1)/2 of them for k top genes, no gene paired with
   * itself, no two rows for the same two genes, a row for every two top genes
   * with its counts splitting the cohort, and the event of each following
   * its odds ratio.
   */
  lemma PairRowsProperties(rs: seq<Record>, topN: int, fisher: Fisher)
    ensures |PairRows(rs, topN, fisher)| == |TopGenes(rs, topN)| * (|TopGenes(rs, topN)| - 1) / 2
    ensures DistinctGenePairs(PairRows(rs, topN, fisher))
    ensures CoversAllPairs(TopGenes(rs, topN), PairRows(rs, topN, fisher))
    ensures forall row :: row in PairRows(rs, topN, fisher) ==>
      row.gene1 in Genes(rs) && row.gene2 in Genes(rs) &&
      row.n00 >= 0 && row.n00 + row.n01 + row.n11 + row.n10 == |Samples(rs)| &&
      (row.event == CoOccurrence <==> ExceedsOne(row.oddsRatio))
  {
    var top := TopGenes(rs, topN);
    var ps := Pairs(|top|);
    var rows := PairRows(rs, topN, fisher);
    PairsCount(|top|);
    GenePairsDistinct(rs, top, fisher);
    PairsMembers(|top|);
    forall row | row in rows
      ensures row.gene1 in Genes(rs) && row.gene2 in Genes(rs)
      ensures row.n00 >= 0 && row.n00 + row.n01 + row.n11 + row.n10 == |Samples(rs)|
      ensures row.event == CoOccurrence <==> ExceedsOne(row.oddsRatio)
    {
      var t :| 0 <= t < |rows| && rows[t] == row;
      assert ps[t] in ps;
      var g1, g2 := top[ps[t].i], top[ps[t].j];
      assert row == TestPair(rs, g1, g2, fisher);
      TestPairCounts(rs, g1, g2, fisher);
    }
  }

  /**
   * With SciPy's odds ratio, each pair row is called co-occurring exactly
   * when its table has positive margins and n11*n00 exceeds n10*n01.
   */
  lemma PairRowsEvents(rs: seq<Record>, topN: int, fisher: Fisher)
    requires forall c: Contingency :: fisher(Layout(c)).oddsRatio == ScipyOddsRatio(Layout(c))
    ensures forall row :: row in PairRows(rs, topN, fisher) ==>
      (row.event == CoOccurrence <==>
        MarginsPositive(Contingency(row.n11, row.n10, row.n01, row.n00)) && row.n11 * row.n00 > row.n10 * row.n01)
  {
    var top := TopGenes(rs, topN);
    var ps := Pairs(|top|);
    var rows := PairRows(rs, topN, fisher);
    PairsMembers(|top|);
    forall row | row in rows
      ensures row.event == CoOccurrence <==>
        MarginsPositive(Contingency(row.n11, row.n10, row.n01, row.n00)) && row.n11 * row.n00 > row.n10 * row.n01
    {
      var t :| 0 <= t < |rows| && rows[t] == row;
      assert ps[t] in ps;
      var g1, g2 := top[ps[t].i], top[ps[t].j];
      assert row == TestPair(rs, g1, g2, fisher);
      var c := Tabulate(rs, g1, g2);
      TabulateCounts(rs, g1, g2);
      assert Contingency(row.n11, row.n10, row.n01, row.n00) == c;
      CrossProductClassification(c);
    }
  }

  /** What the analysis of a loaded table returns. */
  function Analysis(rs: seq<Record>, topN: int, cutoff: real, lib: Library): string
  {
    match Significant(PairRows(rs, topN, lib.fisherExact), lib.adjustBH, cutoff)
    case Raised(message) => ErrorPrefix + message
    case Ok(kept) => if |kept| == 0 then NoneFound else lib.render(kept)
  }

  /**
   * The "nothing significant" text comes back when the adjustment succeeds
   * and no adjusted p-value is below the cutoff; when some is, the rendered
   * table of the significant rows comes back.
   */
  lemma AnalysisOutcome(rs: seq<Record>, topN: int, cutoff: real, lib: Library)
    requires lib.adjustBH(PValues(PairRows(rs, topN, lib.fisherExact))).Ok?
    requires |lib.adjustBH(PValues(PairRows(rs, topN, lib.fisherExact))).value| ==
      |PairRows(rs, topN, lib.fisherExact)|
    ensures var corrected := lib.adjustBH(PValues(PairRows(rs, topN, lib.fisherExact))).value;
      (forall t :: 0 <= t < |corrected| ==> corrected[t] >= cutoff) ==>
        Analysis(rs, topN, cutoff, lib) == NoneFound
    ensures var corrected := lib.adjustBH(PValues(PairRows(rs, topN, lib.fisherExact))).value;
      (exists t :: 0 <= t < |corrected| && corrected[t] < cutoff) ==>
        Analysis(rs, topN, cutoff, lib) ==
          lib.render(KeepBelow(Attach(PairRows(rs, topN, lib.fisherExact), corrected), cutoff))
  {
    var rows := PairRows(rs, topN, lib.fisherExact);
    var corrected := lib.adjustBH(PValues(rows)).value;
    var adjusted := Attach(rows, corrected);
    assert Significant(rows, lib.adjustBH, cutoff) == Ok(KeepBelow(adjusted, cutoff));
    assert forall t :: 0 <= t < |adjusted| ==> adjusted[t].pAdjust == corrected[t];
    KeepBelowEmpty(adjusted, cutoff);
  }

  /** An exception raised by the adjustment comes back as the generic error text. */
  lemma AnalysisAdjustError(rs: seq<Record>, topN: int, cutoff: real, lib: Library)
    requires lib.adjustBH(PValues(PairRows(rs, topN, lib.fisherExact))).Raised?
    ensures Analysis(rs, topN, cutoff, lib) ==
      ErrorPrefix + lib.adjustBH(PValues(PairRows(rs, topN, lib.fisherExact))).message
  {
  }

  /**
   * The analysis of a loaded table: the pair loop, then adjustment, filter
   * and formatting.
   */
  method Analyze(rs: seq<Record>, topN: int, cutoff: real, lib: Library) returns (out: string)
    ensures out == Analysis(rs, topN, cutoff, lib)
  {
    var top := TopGenes(rs, topN);
    var results := TestPairs(top, RowTest(rs, lib.fisherExact));
    match Significant(results, lib.adjustBH, cutoff)
    case Raised(message) =>
      out := ErrorPrefix + message;
    case Ok(kept) =>
      if |kept| == 0 {
        out := NoneFound;
      } else {
        out := lib.render(kept);
      }
  }

  /**
   * What the tool returns once the inputs are settled: the reader's outcome
   * for `path`, then the column checks in the order the code reads the
   * columns, then the analysis.
   */
  function Outcome(path: string, loaded: LoadResult, topN: int, cutoff: real, lib: Library): string
  {
    match loaded
    case FileNotFound => FileMissing(path)
    case LoadFailed(message) => ErrorPrefix + message
    case Loaded(table) =>
      if BarcodeColumn !in table.columns then MissingColumn(BarcodeColumn)
      else if GeneColumn !in table.columns then MissingColumn(GeneColumn)
      else Analysis(table.records, topN, cutoff, lib)
  }

  /**
   * Every failure before the analysis is reported as a string that starts
   * with "Error": a missing file names the path, an unreadable file gives the
   * generic prefix and the reader's message, and a table lacking a column
   * names the first missing one, the barcode column before the gene column.
   * A table with both columns gives the analysis.
   */
  lemma OutcomeErrors(path: string, loaded: LoadResult, topN: int, cutoff: real, lib: Library)
    ensures !loaded.Loaded? ==> StartsWith(Outcome(path, loaded, topN, cutoff, lib), "Error")
    ensures loaded.FileNotFound? ==>
      StartsWith(Outcome(path, loaded, topN, cutoff, lib), NotFoundHead) &&
      Outcome(path, loaded, topN, cutoff, lib)[|NotFoundHead|..] == path
    ensures loaded.LoadFailed? ==> Outcome(path, loaded, topN, cutoff, lib) == ErrorPrefix + loaded.message
    ensures loaded.Loaded? && !(BarcodeColumn in loaded.table.columns && GeneColumn in loaded.table.columns) ==>
      var missing := if BarcodeColumn !in loaded.table.columns then BarcodeColumn else GeneColumn;
      missing !in loaded.table.columns &&
      StartsWith(Outcome(path, loaded, topN, cutoff, lib), MissingColumnHead) &&
      Outcome(path, loaded, topN, cutoff, lib)[|MissingColumnHead|..] == "'" + missing + "'"
    ensures loaded.Loaded? && BarcodeColumn in loaded.table.columns && GeneColumn in loaded.table.columns ==>
      Outcome(path, loaded, topN, cutoff, lib) == Analysis(loaded.table.records, topN, cutoff, lib)
  {
    match loaded
    case FileNotFound =>
      FileMissingText(path);
    case LoadFailed(message) =>
      PrefixIsError();
      StartsWithConcat(ErrorPrefix, message, "", "Error");
    case Loaded(table) =>
      MissingColumnText(BarcodeColumn);
      MissingColumnText(GeneColumn);
  }

  lemma PrefixIsError()
    ensures StartsWith(ErrorPrefix, "Error")
  {
    assert ErrorPrefix[0] == 'E' && ErrorPrefix[1] == 'r' && ErrorPrefix[2] == 'r' && ErrorPrefix[3] == 'o' && ErrorPrefix[4] == 'r';
  }

  /** The `inputs` dictionary: the three keys the tool reads, each possibly missing. */
  class SomaticInputs {
    var mafFilePath: Option<string>
    var topN: Option<int>
    var pvalueCutoff: Option<real>

    constructor (mafFilePath: Option<string>, topN: Option<int>, pvalueCutoff: Option<real>)
      ensures this.mafFilePath == mafFilePath && this.topN == topN && this.pvalueCutoff == pvalueCutoff
    {
      this.mafFilePath := mafFilePath;
      this.topN := topN;
      this.pvalueCutoff := pvalueCutoff;
    }
  }

  /** `value if present else default`. */
  function OrElse<T>(o: Option<T>, default: T): T {
    match o
    case Some(v) => v
    case None => default
  }

  /**
   * `_run(inputs)`: `null` stands for an argument that is not a dictionary.
   * With a path, the missing `top_n` and `pvalue_cutoff` are written into the
   * caller's dictionary before anything else happens; without one the
   * dictionary is left alone.
   */
  method Run(inputs: SomaticInputs?, load: Load, lib: Library) returns (out: string)
    modifies inputs
    ensures inputs == null ==> out == ErrorPrefix + "Input must be a dictionary."
    ensures inputs != null && old(inputs.mafFilePath).None? ==>
      out == ErrorPrefix + "Input dictionary must contain the key 'maf_file_path'." &&
      unchanged(inputs)
    ensures inputs != null && old(inputs.mafFilePath).Some? ==>
      inputs.mafFilePath == old(inputs.mafFilePath) &&
      inputs.topN == Some(OrElse(old(inputs.topN), DefaultTopN)) &&
      inputs.pvalueCutoff == Some(OrElse(old(inputs.pvalueCutoff), DefaultCutoff)) &&
      out == Outcome(inputs.mafFilePath.value, load(inputs.mafFilePath.value),
                     inputs.topN.value, inputs.pvalueCutoff.value, lib)
  {
    if inputs == null {
      return ErrorPrefix + "Input must be a dictionary.";
    }
    if inputs.mafFilePath.None? {
      return ErrorPrefix + "Input dictionary must contain the key 'maf_file_path'.";
    }
    if inputs.topN.None? {
      inputs.topN := Some(DefaultTopN);
    }
    if inputs.pvalueCutoff.None? {
      inputs.pvalueCutoff := Some(DefaultCutoff);
    }
    var path := inputs.mafFilePath.value;
    var topN := inputs.topN.value;
    var cutoff := inputs.pvalueCutoff.value;
    match load(path)
    case FileNotFound =>
      out := FileMissing(path);
    case LoadFailed(message) =>
      out := ErrorPrefix + message;
    case Loaded(table) =>
      if BarcodeColumn !in table.columns {
        out := MissingColumn(BarcodeColumn);
      } else if GeneColumn !in table.columns {
        out := MissingColumn(GeneColumn);
      } else {
        out := Analyze(table.records, topN, cutoff, lib);
      }
  }
}
