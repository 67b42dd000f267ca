# maf_ai tool core in Dafny

This project models four of the LangChain/crewai tools of `maf_ai` that work
on MAF (Mutation Annotation Format) files, and proves properties of them.

- **Somatic interactions** (`SomaticInteractionsTool._run`). The tool validates
  its dictionary argument and writes the defaults `top_n = 25` and
  `pvalue_cutoff = 0.05` into it. It picks the `top_n` genes with the most
  rows, then walks every pair `(i, j)` with `i < j` of those genes. For each
  pair it builds the 2x2 table of mutated samples, runs Fisher's exact test
  and names the event from the odds ratio. It then adjusts the p-values
  (Benjamini–Hochberg), keeps the rows whose adjusted value lies strictly
  below the cutoff, and returns them, the "none found" sentence or an
  error string.
- **Task delegator** (`TaskDelegator._run`). It checks its argument and
  parses the JSON plan. It maps each step to a task by ordered substring
  tests and joins the delegated tasks with `", "`.
- **Report generation** (`ReportGenerationTask._run`). It holds the outputs
  of the other tools and builds a Markdown report from them. Each missing
  output gets a placeholder. The fixed sections come in a fixed order, and
  each non-blank line of the two interaction outputs becomes one table row.
- **MAF summarizer** (`MAFSummarizer._run`). It reports the number of
  distinct samples, the number of distinct genes and the count of each
  variant classification, under a header.

Files:

- `common.dfy`: `Option`, `Result` (an exception's message), and the tool
  argument `Arg` (a dictionary of strings, or not a dictionary).
- `py_strings.dfy`: the Python string operations used:
  - `in`, `split`, `join`, `replace` and `strip`;
  - `str` of a natural number.
- `maf_table.dfy`: the parsed MAF table and the pandas column operations the
  tools use: `unique`, `nunique` and `value_counts`.
- `gene_ranking.dfy`: `value_counts().nlargest(top_n).index`.
- `pair_testing.dfy`: the pair loop, the contingency table, the event
  classification, and SciPy's odds ratio.
- `somatic_interactions.dfy`, `task_delegator.dfy`, `report_generation.dfy`,
  `maf_summarizer.dfy`: the four tools.

Library calls are parameters of the model:

- the file reader (`Load`);
- `fisher_exact` (`Fisher`);
- `multipletests` (`Adjust`);
- `DataFrame.to_string` (`Render`);
- `json.loads` (`ParseJson`);
- `str` of a dict (`Repr`).

Their results appear only through what the tools do with them.

The somatic tool updates the caller's dictionary in place, so it is a class
(`SomaticInputs`) whose fields `Run` modifies. Its pair loop is a method with
nested loops, proved against a function of the inputs. The delegator's loop
and the report builder's string appends and line loops are methods too. The
summarizer only computes expressions, so it is a function with lemmas.

## Model

| member | source | states |
|---|---|---|
| MafTable.Barcodes | maf_tools/somatic_interactions.py:53 | The `Tumor_Sample_Barcode` column: one cell per record, in record order. |
| MafTable.GeneSymbols | maf_tools/somatic_interactions.py:56 | The `Hugo_Symbol` column: one cell per record, in record order. |
| MafTable.Samples | maf_tools/somatic_interactions.py:53 | Definition of the cohort, the distinct barcodes; specified by `SampleCountIsDistinctSamples` and `MutatedSamplesInCohort`. |
| MafTable.Genes | maf_tools/somatic_interactions.py:56 | Definition of the distinct gene symbols; specified by `GeneCountIsDistinctGenes`. |
| MafTable.MutatedSamples | maf_tools/somatic_interactions.py:68-73 | Definition of a gene's mutated samples; specified by `MutatedSamplesInCohort` and `TabulateCounts`. |
| MafTable.RowCount | maf_tools/somatic_interactions.py:56 | Definition of `value_counts()` of `Hugo_Symbol` at one gene, the number of its rows; specified by `GeneRanking.TopGenes`. |
| MafTable.Classifications | maf_tools/maf_summarizer.py:38-40 | The non-empty `Variant_Classification` cells: a value is in the column iff some record carries it. |
| MafTable.Unique | maf_tools/somatic_interactions.py:53 | `unique()`: no duplicates, and exactly the values of the column. |
| MafTable.UniqueCount | maf_tools/maf_summarizer.py:36-37 | `nunique()` is the number of distinct values. |
| MafTable.SampleCountIsDistinctSamples | maf_tools/maf_summarizer.py:36 | The number of unique barcodes is the number of distinct samples of the cohort. |
| MafTable.GeneCountIsDistinctGenes | maf_tools/maf_summarizer.py:37 | The number of unique gene symbols is the number of distinct genes, and the unique symbols are exactly those genes. |
| MafTable.MutatedSamplesInCohort | maf_tools/somatic_interactions.py:68-73 | The samples mutated in a gene are a subset of the cohort's samples. |
| MafTable.NoDuplicatesCardinality | maf_tools/somatic_interactions.py:75-77 | A duplicate-free list has as many distinct members as entries, linking `unique()` to `len(set(...))`. |
| MafTable.CountsSumToLength | maf_tools/maf_summarizer.py:38-40 | Summing the counts of every distinct value gives the number of cells. |
| MafTable.TotalOccurrencesCons | maf_tools/maf_summarizer.py:38-40 | Adding a cell in front adds its key's count to the total. |
| MafTable.OccursOnce | maf_tools/maf_summarizer.py:38-40 | A value listed once among duplicate-free keys occurs exactly once there. |
| MafTable.OccursNever | maf_tools/maf_summarizer.py:38-40 | A value absent from a list occurs zero times. |
| MafTable.NoOccurrencesOfEmpty | maf_tools/maf_summarizer.py:38-40 | An empty column has total count zero. |
| MafTable.FileMissing | maf_tools/somatic_interactions.py:126 | Definition of the missing-file message; specified by `FileMissingText`. |
| MafTable.MissingColumn | maf_tools/somatic_interactions.py:128 | Definition of the missing-column message; specified by `MissingColumnText`. |
| MafTable.FileMissingText | maf_tools/somatic_interactions.py:125-126 | The missing-file message starts with "Error" and with "Error: MAF file not found at ", and the path follows verbatim. |
| MafTable.MissingColumnText | maf_tools/somatic_interactions.py:127-128 | The missing-column message starts with "Error: Required column not found in MAF file: ", followed by the column name in single quotes. |
| GeneRanking.FirstMaximum | maf_tools/somatic_interactions.py:56 | The chosen position holds a largest count, and no earlier position has that count. |
| GeneRanking.RemoveAt | maf_tools/somatic_interactions.py:56 | Removing one entry keeps the list duplicate-free and removes exactly that entry. |
| GeneRanking.Select | maf_tools/somatic_interactions.py:56-57 | `nlargest(k)`: `min(k, n)` distinct genes, all taken from the candidates. |
| GeneRanking.SelectNonIncreasing | maf_tools/somatic_interactions.py:56-57 | Counts never increase along the selection. |
| GeneRanking.SelectNoneLeftAbove | maf_tools/somatic_interactions.py:56-57 | No candidate left out has a count above the last selected gene. |
| GeneRanking.KeptBoundLeftOut | maf_tools/somatic_interactions.py:56-57 | Along a non-increasing selection, every kept gene has at least the count of every gene left out. |
| GeneRanking.MaximumBoundsMembers | maf_tools/somatic_interactions.py:56 | The first maximum bounds the count of every candidate. |
| GeneRanking.ConsNoDuplicates | maf_tools/somatic_interactions.py:57 | Putting a new gene in front keeps the list duplicate-free. |
| GeneRanking.RowCounts | maf_tools/somatic_interactions.py:56 | The row count of each gene, the key `nlargest` ranks by; specified by `TopGenes`. |
| GeneRanking.TopGenes | maf_tools/somatic_interactions.py:56-57 | `top_genes` has length `min(max(top_n, 0), #genes)` and no duplicates, and holds only genes of the table. Row counts never increase along it, and no gene left out has more rows than a gene kept. |
| PairTesting.Span | maf_tools/somatic_interactions.py:63 | The inner loop visits `(i, j)` for `j = lo, ..., hi-1`, in that order. |
| PairTesting.SpanMembers | maf_tools/somatic_interactions.py:63 | A pair is in the inner range iff its first position is `i` and `lo <= j < hi`. |
| PairTesting.PairsBefore | maf_tools/somatic_interactions.py:62-63 | Definition of the pairs the first `i` outer rounds visit; specified by `PairsBeforeMembers`, `PairsBeforeOrdered` and `PairsBeforeCount`. |
| PairTesting.Pairs | maf_tools/somatic_interactions.py:62-63 | Definition of all pairs the nested loops visit; specified by `PairsMembers`, `PairsOrdered` and `PairsCount`. |
| PairTesting.PairsBeforeMembers | maf_tools/somatic_interactions.py:62-63 | After `i` outer rounds, the visited pairs are exactly those with first position below `i` and `i < j < k`. |
| PairTesting.PairsMembers | maf_tools/somatic_interactions.py:62-63 | The loop visits exactly the pairs with `i < j < k`: no self-pairs and no reversed pairs. |
| PairTesting.PairsInRange | maf_tools/somatic_interactions.py:64-65 | Every visited position indexes the gene list. |
| PairTesting.ConcatOrdered | maf_tools/somatic_interactions.py:62-63 | Joining two ordered runs, each entirely before the next, keeps lexicographic order. |
| PairTesting.PairsBeforeOrdered | maf_tools/somatic_interactions.py:62-63 | The pairs of the first `i` outer rounds come in strict lexicographic order. |
| PairTesting.PairsOrdered | maf_tools/somatic_interactions.py:62-63 | All pairs come in strict lexicographic `(i, j)` order. |
| PairTesting.PairsBeforeCount | maf_tools/somatic_interactions.py:62-63 | After `i` outer rounds, the number of pairs visited is `i(2k-i-1)/2`. |
| PairTesting.PairsCount | maf_tools/somatic_interactions.py:62-63 | `k` genes give `k(k-1)/2` pairs. |
| PairTesting.Partition | maf_tools/somatic_interactions.py:75-78 | The intersection and the two differences partition the mutated sets. `n00` is the number of samples mutated in neither gene. |
| PairTesting.Tabulate | maf_tools/somatic_interactions.py:68-78 | Definition of the four counts; specified by `TabulateCounts` and `TabulateSwap`. |
| PairTesting.TabulateCounts | maf_tools/somatic_interactions.py:68-78 | `n11+n10` and `n11+n01` are the mutated-set sizes. `n00 >= 0` counts the samples mutated in neither gene. The four cells sum to the number of samples. |
| PairTesting.TabulateSwap | maf_tools/somatic_interactions.py:75-78 | Swapping the genes keeps `n11` and `n00` and exchanges `n10` with `n01`. |
| PairTesting.Layout | maf_tools/somatic_interactions.py:81 | `[[n11, n10], [n01, n00]]` is 2x2 and holds the four counts. |
| PairTesting.ExceedsOne | maf_tools/somatic_interactions.py:85 | Definition of `oddsratio > 1` on a float, true for infinity and false for NaN; specified by `Classify` and `CrossProductClassification`. |
| PairTesting.Classify | maf_tools/somatic_interactions.py:85-88 | Co-occurrence iff the odds ratio is above 1, otherwise mutually exclusive. |
| PairTesting.EventName | maf_tools/somatic_interactions.py:85-88 | The label is "Co_Occurence" (the source's spelling) exactly for co-occurrence and "Mutually_Exclusive" exactly for mutual exclusion, so each label names one event. |
| PairTesting.OddsRatioOneIsMutuallyExclusive | maf_tools/somatic_interactions.py:85-88 | An odds ratio of exactly 1, or NaN, is mutually exclusive. |
| PairTesting.TestPair | maf_tools/somatic_interactions.py:64-92 | A row names `gene1` and `gene2` in that order. Its p-value and odds ratio are those `fisher_exact` returns on the pair's `[[n11, n10], [n01, n00]]` table, and its event is co-occurrence iff that odds ratio exceeds 1. |
| PairTesting.TestPairCounts | maf_tools/somatic_interactions.py:68-92 | `n11` is the size of the intersection of the two mutated sets, `n10` and `n01` the sizes of their differences, and `n00` the number of samples in neither. The row's four counts sum to the number of samples. |
| PairTesting.RowsSnoc | maf_tools/somatic_interactions.py:90-92 | One more pair appends its row. |
| PairTesting.RowsAppend | maf_tools/somatic_interactions.py:90-92 | The rows of two runs of pairs are the rows of each, in order. |
| PairTesting.Rows | maf_tools/somatic_interactions.py:62-92 | Definition of the rows of a run of pairs; specified by `RowsSnoc`, `RowsAppend` and `TestPairs`. |
| PairTesting.RowTest | maf_tools/somatic_interactions.py:64-92 | The loop body as a function of the two genes; specified by `TestPair`. |
| PairTesting.RoundRowsArePairRows | maf_tools/somatic_interactions.py:63-92 | The inner loop's rows are the rows of its span of pairs. |
| PairTesting.RowsBeforeArePairRows | maf_tools/somatic_interactions.py:62-92 | The rows after `i` outer rounds are the rows of the pairs visited so far. |
| PairTesting.TestPairs | maf_tools/somatic_interactions.py:59-92 | The nested loop yields one row per pair `i < j`, in `(i, j)` order, `k(k-1)/2` rows in all. |
| PairTesting.PositionsToDistinctGenes | maf_tools/somatic_interactions.py:62-66 | Ordered, strictly increasing positions into a duplicate-free list give no self-pairs and no repeated or reversed gene pairs. |
| PairTesting.PositionsToAllGenePairs | maf_tools/somatic_interactions.py:62-66 | If every pair `a < b` is visited, every two genes get a row with the earlier gene first. |
| PairTesting.GenePairsDistinct | maf_tools/somatic_interactions.py:62-66 | The rows of distinct genes have no self-pair and no repeated or reversed pair, and they cover every pair of genes. |
| PairTesting.QuotientExceedsOne | maf_tools/somatic_interactions.py:85 | `x/y > 1` iff `x > y` for a positive `y`. |
| PairTesting.CrossProductClassification | maf_tools/somatic_interactions.py:81-88 | With SciPy's odds ratio, a pair co-occurs iff all margins are positive and `n11*n00 > n10*n01`. |
| PairTesting.ScipyOddsRatio | maf_tools/somatic_interactions.py:82 | Definition of the odds ratio SciPy returns; specified by `CrossProductClassification`, `InfiniteOddsCoOccur` and `ZeroOddsMutuallyExclusive`. |
| PairTesting.InfiniteOddsCoOccur | maf_tools/somatic_interactions.py:82-86 | Every table with positive margins and a zero off-diagonal cell gets an infinite odds ratio from SciPy, which is co-occurrence. |
| PairTesting.ZeroOddsMutuallyExclusive | maf_tools/somatic_interactions.py:82-88 | Every table with positive off-diagonal cells and a zero diagonal cell gets an odds ratio of 0 from SciPy, which is mutually exclusive. |
| SomaticInteractions.PValues | maf_tools/somatic_interactions.py:111-112 | The `pValue` column: one value per row, in row order. |
| SomaticInteractions.Attach | maf_tools/somatic_interactions.py:114 | `results_df["pAdjust"] = ...`: the adjusted values are attached by position, one per row, with the row's index. |
| SomaticInteractions.AttachIndicesIncrease | maf_tools/somatic_interactions.py:95-114 | The frame's index increases along the rows. |
| SomaticInteractions.KeepBelow | maf_tools/somatic_interactions.py:117 | The filter keeps exactly the rows whose `pAdjust` is strictly below the cutoff, and never adds rows. |
| SomaticInteractions.KeepBelowAppend | maf_tools/somatic_interactions.py:117 | Filtering works row by row: filtering a concatenation concatenates the filtered parts. |
| SomaticInteractions.KeepBelowKeepsOrder | maf_tools/somatic_interactions.py:117 | The kept rows stay in their original order. |
| SomaticInteractions.ConsIncrease | maf_tools/somatic_interactions.py:117 | A row whose index is below all others, put in front, keeps indices increasing. |
| SomaticInteractions.HeadBelowRest | maf_tools/somatic_interactions.py:117 | In an increasing frame, the first index is below every later one. |
| SomaticInteractions.KeepBelowEmpty | maf_tools/somatic_interactions.py:117-121 | The result is empty iff every adjusted value is at or above the cutoff. |
| SomaticInteractions.KeepBelowIdempotent | maf_tools/somatic_interactions.py:117 | Filtering twice with the same cutoff changes nothing more. |
| SomaticInteractions.KeepBelowNarrows | maf_tools/somatic_interactions.py:117 | Filtering with a cutoff, then with a lower one, is filtering with the lower one. |
| SomaticInteractions.SignificantRows | maf_tools/somatic_interactions.py:111-117 | With a well-formed adjustment, a row is kept iff its adjusted value (attached by position) is below the cutoff. The kept rows stay in order. |
| SomaticInteractions.Significant | maf_tools/somatic_interactions.py:111-117 | Definition of the adjustment and filter; specified by `SignificantRows`. |
| SomaticInteractions.LengthMismatch | maf_tools/somatic_interactions.py:114 | Definition of the message pandas raises when the adjusted values do not match the rows in number; `Significant` returns it in that case. |
| SomaticInteractions.PairRowsProperties | maf_tools/somatic_interactions.py:53-92 | There are `k(k-1)/2` rows for `k` top genes. No row is a self-pair, a repeat or a reversal, and every pair of top genes has a row. In every row both genes are in the table, `n00 >= 0`, the counts sum to the number of samples, and the event follows the odds ratio. |
| SomaticInteractions.PairRows | maf_tools/somatic_interactions.py:53-92 | Definition of the pair rows; specified by `PairRowsProperties` and `PairRowsEvents`. |
| SomaticInteractions.PairRowsEvents | maf_tools/somatic_interactions.py:81-92 | With SciPy's odds ratio, every pair row is co-occurring iff its table has positive margins and `n11*n00 > n10*n01`. |
| SomaticInteractions.AnalysisOutcome | maf_tools/somatic_interactions.py:110-123 | If no adjusted value is below the cutoff, the tool returns "No significant somatic interactions found."; otherwise it returns the rendering of exactly the kept rows. |
| SomaticInteractions.AnalysisAdjustError | maf_tools/somatic_interactions.py:111-130 | An exception from the adjustment is reported with the analysis error prefix. |
| SomaticInteractions.Analysis | maf_tools/somatic_interactions.py:110-130 | Definition of the analysis result; specified by `AnalysisOutcome` and `AnalysisAdjustError`, computed by `Analyze`. |
| SomaticInteractions.Analyze | maf_tools/somatic_interactions.py:53-123 | The imperative analysis (pair loop, adjustment, filter, output) returns what the analysis function specifies. |
| SomaticInteractions.OutcomeErrors | maf_tools/somatic_interactions.py:50-130 | Every failure before the analysis starts with "Error". A missing file gives "Error: MAF file not found at " and the path. An unreadable file gives the generic prefix and the reader's message. A missing column gives the required-column head and the first missing column, barcode before gene, in single quotes. A table with both columns gives the analysis result. |
| SomaticInteractions.Outcome | maf_tools/somatic_interactions.py:50-130 | Definition of the result for a path; specified by `OutcomeErrors`. |
| SomaticInteractions.PrefixIsError | maf_tools/somatic_interactions.py:129-130 | The generic analysis error text starts with "Error". |
| SomaticInteractions.SomaticInputs.constructor | maf_tools/somatic_interactions.py:24-27 | The argument dictionary, with each of its three keys present or absent. |
| SomaticInteractions.Run | maf_tools/somatic_interactions.py:32-47 | A non-dictionary gives the type error. A missing path gives the missing-key error and leaves the dictionary unchanged. Otherwise the missing `top_n`/`pvalue_cutoff` are set to 25/0.05 in the caller's dictionary, present values are kept, and the result is the outcome for those values. |
| TaskDelegator.DelegateRoundTrip | maf_tools/task_delegator.py:48-62 | After the fixed head of a task comes the path, verbatim, for a recognized step; for an unrecognized step, the step itself. |
| TaskDelegator.TaskNamesPath | maf_tools/task_delegator.py:49-60 | A recognized task is its head followed by the path, and the head ends with "located at: ". |
| TaskDelegator.StepKind | maf_tools/task_delegator.py:49-62 | Definition of the ordered phrase tests; specified by `FirstPhraseWins`. |
| TaskDelegator.Delegate | maf_tools/task_delegator.py:48-62 | Definition of one delegated task; specified by `DelegateRoundTrip`, `TaskNamesPath` and `FirstPhraseWins`. |
| TaskDelegator.FirstPhraseWins | maf_tools/task_delegator.py:48-62 | For every step: containing "Summarize MAF file" makes it a summary task; otherwise the analysis phrase makes it an analysis task; otherwise the drug-gene phrase makes it a drug-gene task; a step with none of them becomes "Unknown Task: " and the step. |
| TaskDelegator.SummaryBeforeAnalysis | maf_tools/task_delegator.py:49-56 | A step naming the summary and then the analysis becomes a summary task, because the summary test comes first. |
| TaskDelegator.DelegateAll | maf_tools/task_delegator.py:47-63 | The loop produces one task per step, in step order, each the result of the loop body on its step. |
| TaskDelegator.Tasks | maf_tools/task_delegator.py:47-63 | Definition of the delegated tasks, position by position; computed by `DelegateAll` in `Run`. |
| TaskDelegator.OrEmpty | maf_tools/task_delegator.py:45 | Definition of `plan.get("steps", [])`; specified by `OutcomeErrors`, where a plan without steps gives "". |
| TaskDelegator.OutcomeErrors | maf_tools/task_delegator.py:33-68 | A non-dictionary, a missing key, or a plan that is not an object gives the delegation error prefix. A plan without `steps` gives the empty string. |
| TaskDelegator.Outcome | maf_tools/task_delegator.py:33-68 | Definition of the result; specified by `OutcomeErrors`, computed by `Run`. |
| TaskDelegator.Run | maf_tools/task_delegator.py:31-68 | The imperative `_run` returns the outcome function's value, including the JSON-decoding error and the join of the delegated tasks with ", ". |
| ReportGeneration.TableOfSnoc | maf_tools/report_generation_task.py:39-41 | One more line appends its row if its strip is non-empty, and nothing otherwise. |
| ReportGeneration.Get | maf_tools/report_generation_task.py:20-26 | Definition of `inputs.get(key, default)`; specified by the placeholder lemmas. |
| ReportGeneration.Kept | maf_tools/report_generation_task.py:40 | Definition of `if line.strip():`; specified by `KeptLinesMembers` and `TableOfSnoc`. |
| ReportGeneration.RowText | maf_tools/report_generation_task.py:41 | Definition of one row without its break; specified by `RowTextSingleLine` and `TableLines`. |
| ReportGeneration.TableRow | maf_tools/report_generation_task.py:41 | Definition of one row with its break; specified by `TableLines` and `PlaceholderRow`. |
| ReportGeneration.TableOf | maf_tools/report_generation_task.py:39-41 | Definition of what a line loop appends; specified by `TableOfSnoc`, `TableLines` and `TableOfText`, computed by `AppendRows`. |
| ReportGeneration.KeptLinesMembers | maf_tools/report_generation_task.py:40 | The kept lines are exactly the lines that are not all whitespace. |
| ReportGeneration.RowTexts | maf_tools/report_generation_task.py:41 | One row text per line. |
| ReportGeneration.RowTextSingleLine | maf_tools/report_generation_task.py:41 | A row built from a line without a line break has no line break. |
| ReportGeneration.TableLines | maf_tools/report_generation_task.py:39-41 | Read back line by line, the table is one row per kept line, in order, each with its commas turned into column separators. |
| ReportGeneration.TableOfText | maf_tools/report_generation_task.py:39-50 | The table of a text has exactly one row per non-blank line of the text. |
| ReportGeneration.Pieces | maf_tools/report_generation_task.py:29-59 | Where each of five consecutive pieces sits in their concatenation. |
| ReportGeneration.SummarySection | maf_tools/report_generation_task.py:32-33 | Definition of the summary section; specified by `ReportLayout` and `Build`. |
| ReportGeneration.TableSection | maf_tools/report_generation_task.py:36-51 | Definition of a table section; specified by `ReportLayout`, `TableOfText` and `Build`. |
| ReportGeneration.ReportLayout | maf_tools/report_generation_task.py:29-59 | The report is the title, then the summary section, the somatic table, the drug-gene table and the conclusion. They come in that order, adjacent, and nothing else is in the report. |
| ReportGeneration.Assemble | maf_tools/report_generation_task.py:29-59 | Definition of the report for three outputs; specified by `ReportLayout`, computed by `Build`. |
| ReportGeneration.Report | maf_tools/report_generation_task.py:18-61 | Definition of the report for the inputs; specified by the placeholder lemmas, computed by `ReportGenerationTask.Run`. |
| ReportGeneration.SummaryPlaceholder | maf_tools/report_generation_task.py:20 | Without a "MAF Summary" output, the report is the report with "No MAF summary available." as that output. |
| ReportGeneration.SomaticPlaceholder | maf_tools/report_generation_task.py:21-23 | Without a "Somatic Interactions" output, the report is the report with "No somatic interactions available." as that output. |
| ReportGeneration.DrugGenePlaceholder | maf_tools/report_generation_task.py:24-26 | Without a "Drug-Gene Interactions" output, the report is the report with "No drug-gene interactions available." as that output. |
| ReportGeneration.SameOutputsSameReport | maf_tools/report_generation_task.py:20-26 | The report depends on the inputs only through the three looked-up outputs. |
| ReportGeneration.PlaceholderRow | maf_tools/report_generation_task.py:39-41 | A single line that is not all whitespace, leading spaces allowed, becomes a table of one row. |
| ReportGeneration.SomaticPlaceholderRow | maf_tools/report_generation_task.py:21-41 | The somatic placeholder becomes a one-row table. |
| ReportGeneration.DrugGenePlaceholderRow | maf_tools/report_generation_task.py:24-50 | The drug-gene placeholder becomes a one-row table. |
| ReportGeneration.ReportGenerationTask.constructor | maf_tools/report_generation_task.py:6-12 | A report task keeps the outputs it is created with. |
| ReportGeneration.ReportGenerationTask.Run | maf_tools/report_generation_task.py:18-61 | `_run` returns the report for its inputs, with placeholders for missing outputs. |
| ReportGeneration.Build | maf_tools/report_generation_task.py:29-59 | The string built by successive appends is the section-by-section report. |
| ReportGeneration.AppendStep | maf_tools/report_generation_task.py:39-41 | One more round of the line loop appends the next line's row, or nothing for a blank line. |
| ReportGeneration.AppendRows | maf_tools/report_generation_task.py:39-41 | The line loop appends exactly the table of the text. |
| MafSummarizer.Tally | maf_tools/maf_summarizer.py:38-40 | One entry per key. |
| MafSummarizer.TallyTotal | maf_tools/maf_summarizer.py:38-40 | The counts of the pairs add up to the total occurrences of the keys. |
| MafSummarizer.SelectionIsPool | maf_tools/maf_summarizer.py:38-40 | Ranking all distinct values loses none of them. |
| MafSummarizer.ValueCountsProperties | maf_tools/maf_summarizer.py:38-40 | `value_counts()` lists each distinct value once, with a positive count equal to its occurrences. Counts never increase, and they sum to the number of cells. |
| MafSummarizer.ValueCounts | maf_tools/maf_summarizer.py:38-40 | Definition of `value_counts()`; specified by `ValueCountsProperties`. |
| MafSummarizer.Ranked | maf_tools/maf_summarizer.py:38-40 | Definition of the `value_counts()` order; specified by `SelectionIsPool` and `ValueCountsProperties`. |
| MafSummarizer.OccursInside | maf_tools/maf_summarizer.py:38-40 | A present value occurs at least once. |
| MafSummarizer.OccurrencesSnoc | maf_tools/maf_summarizer.py:38-40 | One more cell adds one to its own value's count and nothing to the others. |
| MafSummarizer.ClassificationOccurrences | maf_tools/maf_summarizer.py:38-40 | The count of a classification is the number of records carrying it. |
| MafSummarizer.ClassificationCountsCorrect | maf_tools/maf_summarizer.py:38-40 | The dictionary has each classification present in the records exactly once, and no other key. Each carries the number of records with that classification, and the counts sum to the number of classified records. |
| MafSummarizer.ClassificationCounts | maf_tools/maf_summarizer.py:38-40 | Definition of the classification counts; specified by `ClassificationCountsCorrect`. |
| MafSummarizer.LinesSplit | maf_tools/maf_summarizer.py:43-48 | Four lines joined by line breaks split back into those four lines. |
| MafSummarizer.Lines | maf_tools/maf_summarizer.py:43-48 | Definition of four lines joined by breaks; specified by `LinesSplit`. |
| MafSummarizer.DecimalLine | maf_tools/maf_summarizer.py:45-46 | A caption followed by a number stays one line. |
| MafSummarizer.CaptionsAreLines | maf_tools/maf_summarizer.py:44-47 | The fixed captions have no line breaks. |
| MafSummarizer.SummaryLines | maf_tools/maf_summarizer.py:43-48 | The summary splits into the header, the sample-count line, the gene-count line and the classification line. |
| MafSummarizer.SummaryLayout | maf_tools/maf_summarizer.py:36-48 | Line by line, the summary is "MAF Summary:", then the number of distinct samples and the number of distinct genes in decimal, then the rendered classification counts. |
| MafSummarizer.Summary | maf_tools/maf_summarizer.py:43-48 | Definition of the summary text; specified by `SummaryLines` and `SummaryLayout`. |
| MafSummarizer.RunErrors | maf_tools/maf_summarizer.py:21-56 | A non-dictionary or missing path gives "Error summarizing MAF file: Input must be a dictionary with a 'maf_file_path' key.". A missing file gives "Error: MAF file not found at " and the path. Another reader failure gives the generic prefix and its message. A missing column gives the required-column head and the first missing column, in read order, in single quotes. |
| MafSummarizer.RunSummary | maf_tools/maf_summarizer.py:28-49 | A table with all three columns gives exactly the summary of its records. Line by line, that is the header, the distinct sample and gene counts and the rendered classification counts. |
| MafSummarizer.Run | maf_tools/maf_summarizer.py:21-56 | Definition of `_run`; specified by `RunErrors` and `RunSummary`. |
| PyStrings.Split | maf_tools/report_generation_task.py:39 | `str.split(c)` gives one more piece than there are separators. |
| PyStrings.SplitPiecesLackSeparator | maf_tools/report_generation_task.py:39 | No piece of a split contains the separator. |
| PyStrings.JoinSplit | maf_tools/report_generation_task.py:39 | Joining the pieces of a split with the separator gives back the text. |
| PyStrings.Join | maf_tools/task_delegator.py:64 | Definition of `sep.join(parts)`; specified by `JoinSplit` and `SplitJoin`. |
| PyStrings.SplitJoin | maf_tools/report_generation_task.py:39 | The string model's split inverts a join whose parts lack the separator; it completes the round trip with `JoinSplit`. |
| PyStrings.SplitWithoutSeparator | maf_tools/report_generation_task.py:39 | A text without the separator splits into itself. |
| PyStrings.SplitAtSeparator | maf_tools/report_generation_task.py:39 | A split stops at the first separator and starts over after it. |
| PyStrings.ReplaceIsJoinOfSplit | maf_tools/report_generation_task.py:41 | `str.replace` of a character is the join of the split. |
| PyStrings.ReplaceRemoves | maf_tools/report_generation_task.py:41 | A character missing from the replacement is missing from the result, if it is the replaced character or is missing from the text. |
| PyStrings.Replace | maf_tools/report_generation_task.py:41 | Definition of `str.replace` of a character; specified by `ReplaceIsJoinOfSplit` and `ReplaceRemoves`. |
| PyStrings.StripStartEmpty | maf_tools/report_generation_task.py:40 | Stripping the start of a text gives "" iff the text is all whitespace. |
| PyStrings.StripEndEmpty | maf_tools/report_generation_task.py:40 | Stripping the end of a text gives "" iff the text is all whitespace. |
| PyStrings.StripStartShape | maf_tools/report_generation_task.py:40 | The start strip is empty or begins with a non-space character. |
| PyStrings.StripEmptyIffBlank | maf_tools/report_generation_task.py:40 | `line.strip()` is empty iff the line is all whitespace. |
| PyStrings.Strip | maf_tools/report_generation_task.py:40 | Definition of `str.strip()`; specified by `StripEmptyIffBlank`. |
| PyStrings.OccursThenContains | maf_tools/task_delegator.py:49 | A text occurring at a position is contained. |
| PyStrings.ContainsWitness | maf_tools/task_delegator.py:49 | A contained text occurs at some position. |
| PyStrings.ContainsIffOccurs | maf_tools/task_delegator.py:49-57 | `sub in s` iff `sub` occurs at some position of `s`. |
| PyStrings.Contains | maf_tools/task_delegator.py:49 | Definition of `sub in s`; specified by `ContainsIffOccurs`. |
| PyStrings.StartsWithConcat | maf_tools/task_delegator.py:68 | A prefix of `p` is a prefix of `p` followed by anything. |
| PyStrings.SuffixOfConcat | maf_tools/task_delegator.py:51-62 | What follows a prefix in a concatenation is the rest. |
| PyStrings.DecimalRoundTrip | maf_tools/maf_summarizer.py:45-46 | `str(n)` is a non-empty string of digits, without a leading zero, that reads back as `n`. |
| PyStrings.Decimal | maf_tools/maf_summarizer.py:45-46 | Definition of `str(n)`; specified by `DecimalRoundTrip`. |

## Left out

- Fisher's exact test (`scipy.stats.fisher_exact`) is a parameter. Its
  p-value is carried into the row unchanged; how it is computed is not
  modelled. Its odds ratio is modelled separately as SciPy
  computes it (`ScipyOddsRatio`), with real arithmetic in place of floating
  point.
- The Benjamini–Hochberg adjustment (`multipletests`) is a parameter. Only
  its length and its result being attached by position are used. A result
  of the wrong length gives pandas' length-mismatch error, whose text is
  modelled.
- `pandas.read_csv` is a parameter: the file either is found, is missing,
  or fails to parse with an error message. TSV parsing, comment lines and
  type inference are not modelled. MAF cells are strings. Only the
  classification cell may be empty; an empty barcode or gene cell is not
  modelled.
- `DataFrame.to_string()` (the somatic tool's output) and the `str` of the
  classification dictionary are parameters: they are pandas and Python
  display formats.
- `json.loads` is a parameter. It gives a decoding error, a non-object with
  its type name, or an object whose `steps` value is a list of strings. A
  `steps` value of another type, and non-string steps, are not modelled.
- Dictionary values are strings (`Arg`), or typed option fields for the
  somatic tool. Other value types (an integer path, a string `top_n`) and
  the exceptions they would raise are not modelled.
- SomaticInteractions.Run: `top_n` is an unbounded integer and the cutoff a
  real. NaN cut-offs and float rounding are not modelled.
- The crewai `Task` base class, its `description` and `expected_output`,
  LangChain's `BaseTool`, and every `_arun` are not modelled.
- ReportGeneration.ReportGenerationTask.Run: the `except` branch returning
  "Error generating report: ..." is not modelled. With string inputs,
  nothing in the body raises.
- Tie order in `value_counts()`: pandas' order among equal counts is not
  fixed here. The model puts the first listed value first. The property
  lemmas (`ValueCountsProperties`, `ClassificationCountsCorrect`,
  `TopGenes`) hold for any tie order. The contracts that equate a result
  with the model's function do fix this tie-break:
  - `MafSummarizer.RunSummary`;
  - `SomaticInteractions.Analyze`;
  - `SomaticInteractions.Run`.
  So among tied counts, pandas' result can differ from the model's in two
  ways: the order of the summary's classification dict, and which gene is
  first in a pair row. When equal counts straddle the `top_n` cut, so can
  which genes are selected.

## Notes on the source

- Genes are ranked by their number of rows (`value_counts()` of
  `Hugo_Symbol`), not by their number of mutated samples.
- The event name is spelled "Co_Occurence", as the source writes it.
- When `top_n` yields fewer than two genes, there are no pairs. The empty
  p-value list still goes to the adjustment parameter, and its outcome
  decides the result.
- In the somatic tool and the summarizer, `inputs.get('maf_file_path',
  'Unknown Path')` always finds the path: the file is read only after the
  key was checked. The message therefore always names the path.
- In the summarizer, a missing column is reported for the first column
  read: `Tumor_Sample_Barcode`, then `Hugo_Symbol`, then
  `Variant_Classification`.
