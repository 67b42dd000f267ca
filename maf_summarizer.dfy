/**
 * The MAF summarizer (`MAFSummarizer._run`): the number of distinct samples,
 * the number of distinct genes and the count of each variant classification
 * of a MAF file, as three lines under a header. The file reader and the
 * Python rendering of the classification dictionary are parameters.
 */
module MafSummarizer {
  import opened Common
  import opened PyStrings
  import opened MafTable
  import opened GeneRanking

  const ErrorPrefix := "Error summarizing MAF file: "
  const PathKey := "maf_file_path"
  const BadInput := "Input must be a dictionary with a 'maf_file_path' key."

  const Header := "MAF Summary:"
  const SamplesLabel := "  Number of Samples: "
  const GenesLabel := "  Number of Genes: "
  const ClassificationsLabel := "  Variant Classifications: "

  /** `value_counts().to_dict()`: each value with its count, in the dictionary's order. */
  type Counts = seq<(string, nat)>

  /** `str` of that dictionary. */
  type Repr = Counts -> string

  /** How often each value occurs in `xs`. */
  function Count(xs: seq<string>): string -> nat {
    x => Occurrences(xs, x)
  }

  /** The distinct values of `xs`, most frequent first, as `value_counts()` orders them. */
  function Ranked(xs: seq<string>): seq<string> {
    var u := Unique(xs);
    Select(Count(xs), u, |u|)
  }

  /** Each of `keys` with its number of occurrences in `xs`. */
  function Tally(keys: seq<string>, xs: seq<string>): (c: Counts)
    ensures |c| == |keys|
  {
    seq(|keys|, t requires 0 <= t < |keys| => (keys[t], Occurrences(xs, keys[t])))
  }

  /** `value_counts().to_dict()` of a column with the non-empty cells `xs`. */
  function ValueCounts(xs: seq<string>): Counts {
    Tally(Ranked(xs), xs)
  }

  /** The keys of a dictionary, in order. */
  function Keys(c: Counts): seq<string> {
    seq(|c|, t requires 0 <= t < |c| => c[t].0)
  }

  /** The sum of the counts of a dictionary. */
  function Total(c: Counts): nat {
    if |c| == 0 then 0 else c[0].1 + Total(c[1..])
  }

  lemma {:induction false} TallyTotal(keys: seq<string>, xs: seq<string>)
    ensures Total(Tally(keys, xs)) == TotalOccurrences(keys, xs)
  {
    if |keys| > 0 {
      assert Tally(keys, xs)[1..] == Tally(keys[1..], xs);
      TallyTotal(keys[1..], xs);
    }
  }

  lemma SubsetCardinality(a: set<string>, b: set<string>)
    requires a <= b
    ensures |a| <= |b|
    decreases a
  {
    if a != {} {
      var x :| x in a;
      SubsetCardinality(a - {x}, b - {x});
    }
  }

  /** A duplicate-free selection from a duplicate-free pool, as long as the pool, holds all of it. */
  lemma SelectionIsPool(pool: seq<string>, chosen: seq<string>)
    requires NoDuplicates(pool) && NoDuplicates(chosen) && |chosen| == |pool|
    requires forall g :: g in chosen ==> g in pool
    ensures forall g :: g in pool <==> g in chosen
  {
    NoDuplicatesCardinality(pool);
    NoDuplicatesCardinality(chosen);
    var p := set g | g in pool;
    var c := set g | g in chosen;
    forall g | g in pool ensures g in chosen {
      if g !in chosen {
        SubsetCardinality(c, p - {g});
      }
    }
  }

  /**
   * The counts of a column: every distinct value once, with its number of
   * occurrences, most frequent first; the counts add up to the number of
   * non-empty cells.
   */
  lemma ValueCountsProperties(xs: seq<string>)
    ensures var c := ValueCounts(xs);
      NoDuplicates(Keys(c)) &&
      (forall x :: x in Keys(c) <==> x in xs) &&
      (forall t :: 0 <= t < |c| ==> c[t].1 == Occurrences(xs, c[t].0) && c[t].1 > 0) &&
      (forall a, b :: 0 <= a < b < |c| ==> c[a].1 >= c[b].1) &&
      Total(c) == |xs|
  {
    var u := Unique(xs);
    var keys := Ranked(xs);
    var c := ValueCounts(xs);
    assert Keys(c) == keys;
    SelectNonIncreasing(Count(xs), u, |u|);
    SelectionIsPool(u, keys);
    forall t | 0 <= t < |c| ensures c[t].1 > 0 {
      assert keys[t] in xs;
      OccursInside(xs, keys[t]);
    }
    TallyTotal(keys, xs);
    CountsSumToLength(keys, xs);
  }

  lemma {:induction false} OccursInside(xs: seq<string>, x: string)
    requires x in xs
    ensures Occurrences(xs, x) > 0
  {
    if xs[0] != x {
      OccursInside(xs[1..], x);
    }
  }

  lemma {:induction false} OccurrencesSnoc(xs: seq<string>, y: string, x: string)
    ensures Occurrences(xs + [y], x) == Occurrences(xs, x) + (if y == x then 1 else 0)
  {
    if |xs| > 0 {
      assert (xs + [y])[1..] == xs[1..] + [y];
      OccurrencesSnoc(xs[1..], y, x);
    } else {
      assert [y][1..] == [];
    }
  }

  /** The number of records whose classification is `c`. */
  function Carrying(rs: seq<Record>, c: string): nat {
    if |rs| == 0 then 0
    else Carrying(rs[..|rs| - 1], c) + (if rs[|rs| - 1].classification == Some(c) then 1 else 0)
  }

  /** The count of a classification in its column is the number of records carrying it. */
  lemma {:induction false} ClassificationOccurrences(rs: seq<Record>, c: string)
    ensures Occurrences(Classifications(rs), c) == Carrying(rs, c)
  {
    if |rs| > 0 {
      ClassificationOccurrences(rs[..|rs| - 1], c);
      var init := Classifications(rs[..|rs| - 1]);
      match rs[|rs| - 1].classification
      case Some(d) => OccurrencesSnoc(init, d, c);
      case None =>
    }
  }

  /** The classification counts of the records. */
  function ClassificationCounts(rs: seq<Record>): Counts {
    ValueCounts(Classifications(rs))
  }

  /**
   * Each classification present in the records appears once in the counts,
   * with the number of records carrying it, and nothing else does; the
   * counts add up to the number of classified records.
   */
  lemma ClassificationCountsCorrect(rs: seq<Record>)
    ensures var c := ClassificationCounts(rs);
      NoDuplicates(Keys(c)) &&
      (forall x :: x in Keys(c) <==> exists r :: r in rs && r.classification == Some(x)) &&
      (forall t :: 0 <= t < |c| ==> c[t].1 == Carrying(rs, c[t].0)) &&
      Total(c) == |Classifications(rs)|
  {
    var c := ClassificationCounts(rs);
    ValueCountsProperties(Classifications(rs));
    forall t | 0 <= t < |c| ensures c[t].1 == Carrying(rs, c[t].0) {
      ClassificationOccurrences(rs, c[t].0);
    }
  }

  /** Four lines joined by line breaks. */
  function Lines(a: string, b: string, c: string, d: string): string {
    a + "\n" + (b + "\n" + (c + "\n" + d))
  }

  /** Splitting four lines without line breaks of their own gives them back. */
  lemma LinesSplit(a: string, b: string, c: string, d: string)
    requires '\n' !in a && '\n' !in b && '\n' !in c && '\n' !in d
    ensures Split(Lines(a, b, c, d), '\n') == [a, b, c, d]
  {
    SplitWithoutSeparator(d, '\n');
    SplitAtSeparator(c, '\n', d);
    SplitAtSeparator(b, '\n', c + "\n" + d);
    SplitAtSeparator(a, '\n', b + "\n" + (c + "\n" + d));
  }

  /** The summary of the records: `nunique()` of two columns and the classification counts. */
  function Summary(rs: seq<Record>, repr: Repr): string {
    Lines(Header,
          SamplesLabel + Decimal(|Unique(Barcodes(rs))|),
          GenesLabel + Decimal(|Unique(GeneSymbols(rs))|),
          ClassificationsLabel + repr(ClassificationCounts(rs)))
  }

  /** A caption followed by a number in decimal is still one line. */
  lemma DecimalLine(caption: string, n: nat)
    requires '\n' !in caption
    ensures '\n' !in caption + Decimal(n)
  {
    DecimalRoundTrip(n);
  }

  /** The fixed captions are single lines. */
  lemma CaptionsAreLines()
    ensures '\n' !in Header && '\n' !in SamplesLabel && '\n' !in GenesLabel && '\n' !in ClassificationsLabel
  {
  }

  /** The lines of a summary, with the numbers as `nunique()` computes them. */
  lemma SummaryLines(rs: seq<Record>, repr: Repr)
    requires '\n' !in repr(ClassificationCounts(rs))
    ensures Split(Summary(rs, repr), '\n') ==
      [Header, SamplesLabel + Decimal(|Unique(Barcodes(rs))|), GenesLabel + Decimal(|Unique(GeneSymbols(rs))|),
       ClassificationsLabel + repr(ClassificationCounts(rs))]
  {
    CaptionsAreLines();
    DecimalLine(SamplesLabel, |Unique(Barcodes(rs))|);
    DecimalLine(GenesLabel, |Unique(GeneSymbols(rs))|);
    LinesSplit(Header, SamplesLabel + Decimal(|Unique(Barcodes(rs))|), GenesLabel + Decimal(|Unique(GeneSymbols(rs))|),
               ClassificationsLabel + repr(ClassificationCounts(rs)));
  }

  /**
   * Read back line by line, a summary is the header, the number of
   * distinct samples in decimal, the number of distinct genes in decimal,
   * and the rendered classification counts.
   */
  lemma SummaryLayout(rs: seq<Record>, repr: Repr)
    requires '\n' !in repr(ClassificationCounts(rs))
    ensures var lines := Split(Summary(rs, repr), '\n');
      |lines| == 4 && lines[0] == Header &&
      lines[1] == SamplesLabel + Decimal(|Samples(rs)|) &&
      lines[2] == GenesLabel + Decimal(|Genes(rs)|) &&
      lines[3] == ClassificationsLabel + repr(ClassificationCounts(rs))
  {
    SummaryLines(rs, repr);
    SampleCountIsDistinctSamples(rs);
    GeneCountIsDistinctGenes(rs);
  }

  /**
   * `_run(inputs)`: the argument check, the reader's outcome for the path,
   * the three column reads in the order the code makes them, then the
   * summary.
   */
  function Run(arg: Arg, load: Load, repr: Repr): string {
    match arg
    case NotADict => ErrorPrefix + BadInput
    case Dict(entries) =>
      if PathKey !in entries then ErrorPrefix + BadInput
      else
        var path := entries[PathKey];
        match load(path)
        case FileNotFound => FileMissing(path)
        case LoadFailed(message) => ErrorPrefix + message
        case Loaded(table) =>
          if BarcodeColumn !in table.columns then MissingColumn(BarcodeColumn)
          else if GeneColumn !in table.columns then MissingColumn(GeneColumn)
          else if ClassificationColumn !in table.columns then MissingColumn(ClassificationColumn)
          else Summary(table.records, repr)
  }

  /**
   * The error paths: a bad argument gives the fixed input error; a missing
   * file gives the missing-file message with the path; any other reader
   * failure gives the generic error with its message; and a table lacking a
   * column names the first missing one of the barcode, gene and
   * classification columns behind the required-column head.
   */
  lemma RunErrors(arg: Arg, load: Load, repr: Repr)
    ensures arg.NotADict? || PathKey !in arg.entries ==> Run(arg, load, repr) == ErrorPrefix + BadInput
    ensures arg.Dict? && PathKey in arg.entries && load(arg.entries[PathKey]).FileNotFound? ==>
      Run(arg, load, repr) == FileMissing(arg.entries[PathKey])
    ensures arg.Dict? && PathKey in arg.entries && load(arg.entries[PathKey]).LoadFailed? ==>
      Run(arg, load, repr) == ErrorPrefix + load(arg.entries[PathKey]).message
    ensures (arg.Dict? && PathKey in arg.entries && load(arg.entries[PathKey]).Loaded? &&
             var columns := load(arg.entries[PathKey]).table.columns;
             !(BarcodeColumn in columns && GeneColumn in columns && ClassificationColumn in columns)) ==>
      var columns := load(arg.entries[PathKey]).table.columns;
      var missing := if BarcodeColumn !in columns then BarcodeColumn
                     else if GeneColumn !in columns then GeneColumn
                     else ClassificationColumn;
      missing !in columns &&
      StartsWith(Run(arg, load, repr), MissingColumnHead) &&
      Run(arg, load, repr)[|MissingColumnHead|..] == "'" + missing + "'"
  {
    if arg.Dict? && PathKey in arg.entries && load(arg.entries[PathKey]).Loaded? {
      var columns := load(arg.entries[PathKey]).table.columns;
      if BarcodeColumn !in columns {
        MissingColumnText(BarcodeColumn);
      } else if GeneColumn !in columns {
        MissingColumnText(GeneColumn);
      } else if ClassificationColumn !in columns {
        MissingColumnText(ClassificationColumn);
      }
    }
  }

  /**
   * A table with all three columns gives its summary; read back line by
   * line, that is the header, the distinct sample and gene counts and the
   * rendered classification counts.
   */
  lemma RunSummary(arg: Arg, load: Load, repr: Repr)
    requires arg.Dict? && PathKey in arg.entries && load(arg.entries[PathKey]).Loaded?
    requires var columns := load(arg.entries[PathKey]).table.columns;
      BarcodeColumn in columns && GeneColumn in columns && ClassificationColumn in columns
    ensures Run(arg, load, repr) == Summary(load(arg.entries[PathKey]).table.records, repr)
    ensures var rs := load(arg.entries[PathKey]).table.records;
      '\n' !in repr(ClassificationCounts(rs)) ==>
        var lines := Split(Run(arg, load, repr), '\n');
        |lines| == 4 && lines[0] == Header &&
        lines[1] == SamplesLabel + Decimal(|Samples(rs)|) &&
        lines[2] == GenesLabel + Decimal(|Genes(rs)|) &&
        lines[3] == ClassificationsLabel + repr(ClassificationCounts(rs))
  {
    var rs := load(arg.entries[PathKey]).table.records;
    if '\n' !in repr(ClassificationCounts(rs)) {
      SummaryLayout(rs, repr);
    }
  }
}
