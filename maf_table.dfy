/**
 * The mutation table the tools read from a MAF file: its columns and its
 * records, with the pandas column operations they apply to it (`unique`,
 * `nunique`, `value_counts`).
 */
module MafTable {
  import opened Common
  import opened PyStrings

  const BarcodeColumn := "Tumor_Sample_Barcode"
  const GeneColumn := "Hugo_Symbol"
  const ClassificationColumn := "Variant_Classification"

  /** One data row; `classification` is None where that cell is empty. */
  datatype Record = Record(barcode: string, gene: string, classification: Option<string>)

  /** A parsed MAF file: the column names of its header and its data rows, in file order. */
  datatype Table = Table(columns: set<string>, records: seq<Record>)

  /** What `pd.read_csv(path, sep="\t", comment="#")` gives for a path. */
  datatype LoadResult =
    | Loaded(table: Table)
    | FileNotFound
    | LoadFailed(message: string)

  /** The reader (`pd.read_csv(path, sep="\t", comment="#")`) as a function of the path. */
  type Load = string -> LoadResult

  const NotFoundHead := "Error: MAF file not found at "
  const MissingColumnHead := "Error: " + "Required column not found in MAF file: "

  /** What a tool returns when the reader finds no file at `path`. */
  function FileMissing(path: string): string {
    NotFoundHead + path
  }

  /** What a tool returns when the table lacks `column`: `str(KeyError(column))` puts the name in single quotes. */
  function MissingColumn(column: string): string {
    MissingColumnHead + "'" + column + "'"
  }

  /** The missing-file message starts with "Error" and its fixed head, then gives the path. */
  lemma FileMissingText(path: string)
    ensures StartsWith(FileMissing(path), "Error")
    ensures StartsWith(FileMissing(path), NotFoundHead)
    ensures FileMissing(path)[|NotFoundHead|..] == path
  {
    assert NotFoundHead[..5] == "Error";
    StartsWithConcat(NotFoundHead, path, "", "Error");
    StartsWithConcat(NotFoundHead, path, "", NotFoundHead);
    SuffixOfConcat(NotFoundHead, path);
  }

  /** The missing-column message starts with "Error" and its fixed head, then names the column in quotes. */
  lemma MissingColumnText(column: string)
    ensures StartsWith(MissingColumn(column), "Error")
    ensures StartsWith(MissingColumn(column), MissingColumnHead)
    ensures MissingColumn(column)[|MissingColumnHead|..] == "'" + column + "'"
  {
    assert "Error: "[..5] == "Error";
    StartsWithConcat("Error: ", "Required column not found in MAF file: ", "", "Error");
    StartsWithConcat(MissingColumnHead, "'" + column, "'", "Error");
    StartsWithConcat(MissingColumnHead, "'" + column, "'", MissingColumnHead);
    assert MissingColumn(column) == MissingColumnHead + ("'" + column + "'");
    SuffixOfConcat(MissingColumnHead, "'" + column + "'");
  }

  predicate NoDuplicates<T(==)>(s: seq<T>) {
    forall a, b :: 0 <= a < b < |s| ==> s[a] != s[b]
  }

  /** The `Tumor_Sample_Barcode` column. */
  function Barcodes(rs: seq<Record>): (col: seq<string>)
    ensures |col| == |rs| && forall k :: 0 <= k < |rs| ==> col[k] == rs[k].barcode
  {
    if |rs| == 0 then [] else Barcodes(rs[..|rs| - 1]) + [rs[|rs| - 1].barcode]
  }

  /** The `Hugo_Symbol` column. */
  function GeneSymbols(rs: seq<Record>): (col: seq<string>)
    ensures |col| == |rs| && forall k :: 0 <= k < |rs| ==> col[k] == rs[k].gene
  {
    if |rs| == 0 then [] else GeneSymbols(rs[..|rs| - 1]) + [rs[|rs| - 1].gene]
  }

  /** The non-empty cells of the `Variant_Classification` column, in row order. */
  function Classifications(rs: seq<Record>): (col: seq<string>)
    ensures forall c :: c in col <==> exists r :: r in rs && r.classification == Some(c)
  {
    if |rs| == 0 then []
    else
      var init := Classifications(rs[..|rs| - 1]);
      var last := rs[|rs| - 1];
      assert forall r :: r in rs <==> r in rs[..|rs| - 1] || r == last;
      match last.classification
      case Some(c) => init + [c]
      case None => init
  }

  /** The distinct sample barcodes of the cohort. */
  function Samples(rs: seq<Record>): set<string>
  {
    set r | r in rs :: r.barcode
  }

  /** The distinct gene symbols of the cohort. */
  function Genes(rs: seq<Record>): set<string>
  {
    set r | r in rs :: r.gene
  }

  /** The samples with at least one record for `gene`. */
  function MutatedSamples(rs: seq<Record>, gene: string): set<string>
  {
    set r | r in rs && r.gene == gene :: r.barcode
  }

  /** Every mutated sample of a gene belongs to the cohort. */
  lemma MutatedSamplesInCohort(rs: seq<Record>, gene: string)
    ensures MutatedSamples(rs, gene) <= Samples(rs)
  {
  }

  /** Number of positions of `xs` that hold `x`. */
  function Occurrences(xs: seq<string>, x: string): nat
  {
    if |xs| == 0 then 0 else (if xs[0] == x then 1 else 0) + Occurrences(xs[1..], x)
  }

  /** `value_counts()` of the `Hugo_Symbol` column at `gene`: the number of rows, not of samples. */
  function RowCount(rs: seq<Record>, gene: string): nat
  {
    Occurrences(GeneSymbols(rs), gene)
  }

  /** `Series.unique()`: the values of `xs` without repeats, in order of first appearance. */
  function Unique(xs: seq<string>): (u: seq<string>)
    ensures NoDuplicates(u)
    ensures forall x :: x in u <==> x in xs
  {
    if |xs| == 0 then []
    else
      var u := Unique(xs[..|xs| - 1]);
      var last := xs[|xs| - 1];
      assert forall x :: x in xs <==> x in xs[..|xs| - 1] || x == last;
      if last in u then u else u + [last]
  }

  /** A sequence without repeats has as many elements as the set of its elements. */
  lemma {:induction false} NoDuplicatesCardinality(s: seq<string>)
    requires NoDuplicates(s)
    ensures |set x | x in s| == |s|
  {
    if |s| > 0 {
      var init := s[..|s| - 1];
      var last := s[|s| - 1];
      NoDuplicatesCardinality(init);
      assert last !in init by {
        forall k | 0 <= k < |init| ensures init[k] != last {
          assert init[k] == s[k];
        }
      }
      assert (set x | x in s) == (set x | x in init) + {last} by {
        assert forall x :: x in s <==> x in init || x == last;
      }
    }
  }

  /** `nunique()` counts the distinct values: the size of the set of the column's values. */
  lemma UniqueCount(xs: seq<string>)
    ensures |Unique(xs)| == |set x | x in xs|
  {
    NoDuplicatesCardinality(Unique(xs));
    assert (set x | x in Unique(xs)) == (set x | x in xs);
  }

  /** `Tumor_Sample_Barcode.nunique()` is the number of distinct samples. */
  lemma SampleCountIsDistinctSamples(rs: seq<Record>)
    ensures |Unique(Barcodes(rs))| == |Samples(rs)|
  {
    UniqueCount(Barcodes(rs));
    assert (set x | x in Barcodes(rs)) == Samples(rs) by {
      forall x | x in Samples(rs) ensures x in Barcodes(rs) {
        var r :| r in rs && r.barcode == x;
        var k :| 0 <= k < |rs| && rs[k] == r;
        assert Barcodes(rs)[k] == x;
      }
    }
  }

  /** `Hugo_Symbol.nunique()` is the number of distinct genes. */
  lemma GeneCountIsDistinctGenes(rs: seq<Record>)
    ensures |Unique(GeneSymbols(rs))| == |Genes(rs)|
    ensures forall g :: g in Unique(GeneSymbols(rs)) <==> g in Genes(rs)
  {
    UniqueCount(GeneSymbols(rs));
    assert (set x | x in GeneSymbols(rs)) == Genes(rs) by {
      forall x | x in Genes(rs) ensures x in GeneSymbols(rs) {
        var r :| r in rs && r.gene == x;
        var k :| 0 <= k < |rs| && rs[k] == r;
        assert GeneSymbols(rs)[k] == x;
      }
    }
  }

  /** The sum, over the keys listed in `keys`, of how often each occurs in `xs`. */
  function TotalOccurrences(keys: seq<string>, xs: seq<string>): nat
  {
    if |keys| == 0 then 0 else Occurrences(xs, keys[0]) + TotalOccurrences(keys[1..], xs)
  }

  lemma {:induction false} TotalOccurrencesCons(keys: seq<string>, y: string, t: seq<string>)
    ensures TotalOccurrences(keys, [y] + t) == Occurrences(keys, y) + TotalOccurrences(keys, t)
  {
    if |keys| > 0 {
      TotalOccurrencesCons(keys[1..], y, t);
      assert ([y] + t)[1..] == t;
    }
  }

  lemma {:induction false} OccursOnce(keys: seq<string>, y: string)
    requires NoDuplicates(keys) && y in keys
    ensures Occurrences(keys, y) == 1
  {
    if keys[0] == y {
      OccursNever(keys[1..], y);
    } else {
      OccursOnce(keys[1..], y);
    }
  }

  lemma {:induction false} OccursNever(xs: seq<string>, y: string)
    requires y !in xs
    ensures Occurrences(xs, y) == 0
  {
    if |xs| > 0 {
      OccursNever(xs[1..], y);
    }
  }

  /**
   * Counting each distinct value and adding the counts up gives the number of
   * values: the `value_counts()` of a column sum to its number of non-empty cells.
   */
  lemma {:induction false} CountsSumToLength(keys: seq<string>, xs: seq<string>)
    requires NoDuplicates(keys)
    requires forall x :: x in xs ==> x in keys
    ensures TotalOccurrences(keys, xs) == |xs|
  {
    if |xs| == 0 {
      NoOccurrencesOfEmpty(keys, xs);
    } else {
      assert [xs[0]] + xs[1..] == xs;
      TotalOccurrencesCons(keys, xs[0], xs[1..]);
      OccursOnce(keys, xs[0]);
      CountsSumToLength(keys, xs[1..]);
    }
  }

  lemma {:induction false} NoOccurrencesOfEmpty(keys: seq<string>, xs: seq<string>)
    requires |xs| == 0
    ensures TotalOccurrences(keys, xs) == 0
  {
    if |keys| > 0 {
      NoOccurrencesOfEmpty(keys[1..], xs);
    }
  }
}
