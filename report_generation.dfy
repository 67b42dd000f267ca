/**
 * The report builder (`ReportGenerationTask._run`): a Markdown report from
 * the text outputs of the other tools, with a placeholder for each missing
 * one, fixed sections in a fixed order, and one table row per non-blank line
 * of the interaction outputs.
 */
module ReportGeneration {
  import opened PyStrings

  const SummaryKey := "MAF Summary"
  const SomaticKey := "Somatic Interactions"
  const DrugGeneKey := "Drug-Gene Interactions"

  const NoSummary := "No MAF summary available."
  const NoSomatic := "No somatic interactions available."
  const NoDrugGene := "No drug-gene interactions available."

  /**
   * The fixed texts of a report: the title, the section headings, the
   * column and rule lines of the two tables, and the closing paragraph.
   */
  datatype Template = Template(
    title: string,
    summaryHeading: string,
    somaticHeading: string, somaticColumns: string, somaticRule: string,
    drugGeneHeading: string, drugGeneColumns: string, drugGeneRule: string,
    conclusionHeading: string, conclusion: string)

  /** The texts `_run` writes. */
  const Standard := Template(
    "# Comprehensive MAF Analysis Report\n\n",
    "## MAF Summary\n\n",
    "## Somatic Interactions\n\n", "| Gene1 | Gene2 | pValue |\n", "|-------|-------|--------|\n",
    "## Drug-Gene Interactions\n\n", "| Gene | Drug | Interaction Type | Sources |\n",
    "|------|------|------------------|---------|\n",
    "## Conclusion\n\n",
    "This report summarizes the results of the MAF analysis, including the MAF file summary, " +
    "somatic interaction analysis, and drug-gene interactions. The findings provide valuable insights " +
    "into potential therapeutic targets and their clinical relevance.\n")

  /** `inputs.get(key, default)` */
  function Get(inputs: map<string, string>, key: string, default: string): string {
    if key in inputs then inputs[key] else default
  }

  /** The text of the row for one line, without its line break: its fields separated by " | ". */
  function RowText(line: string): string {
    "| " + Replace(line, ',', " | ") + " |"
  }

  /** `f"| {line.replace(',', ' | ')} |\n"` */
  function TableRow(line: string): string {
    RowText(line) + "\n"
  }

  /** `if line.strip():` */
  predicate Kept(line: string) {
    Strip(line) != ""
  }

  /** What one line contributes to its table: its row if it is kept, nothing otherwise. */
  function RowOf(line: string): string {
    if Kept(line) then TableRow(line) else ""
  }

  /** What the loop over `lines` appends: a row for each kept line, in order. */
  function TableOf(lines: seq<string>): string {
    if |lines| == 0 then "" else RowOf(lines[0]) + TableOf(lines[1..])
  }

  /** One more line appends its row, if it is kept. */
  lemma {:induction false} TableOfSnoc(lines: seq<string>, line: string)
    ensures TableOf(lines + [line]) == TableOf(lines) + RowOf(line)
  {
    if |lines| == 0 {
      assert lines + [line] == [line];
      assert TableOf([line]) == RowOf(line) + TableOf([]);
    } else {
      var longer := lines + [line];
      assert longer[0] == lines[0] && longer[1..] == lines[1..] + [line];
      assert TableOf(longer) == RowOf(lines[0]) + TableOf(lines[1..] + [line]);
      TableOfSnoc(lines[1..], line);
      assert TableOf(lines) == RowOf(lines[0]) + TableOf(lines[1..]);
      AppendAssociative(RowOf(lines[0]), TableOf(lines[1..]), RowOf(line));
    }
  }

  /** The kept lines, in order. */
  function KeptLines(lines: seq<string>): seq<string>
  {
    if |lines| == 0 then []
    else (if Kept(lines[0]) then [lines[0]] else []) + KeptLines(lines[1..])
  }

  /** The kept lines are the lines that are not all whitespace. */
  lemma {:induction false} KeptLinesMembers(lines: seq<string>)
    ensures forall line :: line in KeptLines(lines) <==> line in lines && !IsBlank(line)
  {
    if |lines| > 0 {
      KeptLinesMembers(lines[1..]);
      StripEmptyIffBlank(lines[0]);
      assert forall line :: line in lines <==> line == lines[0] || line in lines[1..];
    }
  }

  /** The row texts of `lines`. */
  function RowTexts(lines: seq<string>): (rows: seq<string>)
    ensures |rows| == |lines|
  {
    if |lines| == 0 then [] else [RowText(lines[0])] + RowTexts(lines[1..])
  }

  lemma RowTextSingleLine(line: string)
    requires '\n' !in line
    ensures '\n' !in RowText(line)
  {
    ReplaceRemoves(line, ',', " | ", '\n');
  }

  /**
   * Reading the table back line by line gives one row per kept line, in the
   * lines' order, and nothing else but the empty piece after the last line
   * break.
   */
  lemma {:induction false} TableLines(lines: seq<string>)
    requires forall k :: 0 <= k < |lines| ==> '\n' !in lines[k]
    ensures Split(TableOf(lines), '\n') == RowTexts(KeptLines(lines)) + [""]
  {
    if |lines| > 0 {
      TableLines(lines[1..]);
      var rest := TableOf(lines[1..]);
      if Kept(lines[0]) {
        RowTextSingleLine(lines[0]);
        assert TableOf(lines) == RowText(lines[0]) + "\n" + rest;
        SplitAtSeparator(RowText(lines[0]), '\n', rest);
        assert KeptLines(lines) == [lines[0]] + KeptLines(lines[1..]);
        assert RowTexts(KeptLines(lines)) == [RowText(lines[0])] + RowTexts(KeptLines(lines[1..]));
      } else {
        assert TableOf(lines) == "" + rest;
        assert "" + rest == rest;
        assert KeptLines(lines) == KeptLines(lines[1..]);
      }
    } else {
      assert TableOf(lines) == "";
      assert KeptLines(lines) == [];
    }
  }

  /** The table built from a text: exactly a row for each of its non-blank lines. */
  lemma TableOfText(text: string)
    ensures Split(TableOf(Split(text, '\n')), '\n') == RowTexts(KeptLines(Split(text, '\n'))) + [""]
    ensures forall line :: line in KeptLines(Split(text, '\n')) <==> line in Split(text, '\n') && !IsBlank(line)
  {
    SplitPiecesLackSeparator(text, '\n');
    TableLines(Split(text, '\n'));
    KeptLinesMembers(Split(text, '\n'));
  }

  /** The summary section: its heading and the summary verbatim in a fenced block. */
  function SummarySection(t: Template, summary: string): string {
    t.summaryHeading + "```\n" + summary + "\n```\n\n"
  }

  /** A table section: heading, column line, rule line, the rows of `text`, a blank line. */
  function TableSection(heading: string, columns: string, rule: string, text: string): string {
    heading + columns + rule + TableOf(Split(text, '\n')) + "\n"
  }

  /** The somatic-interaction table of a report. */
  function SomaticSection(t: Template, somatic: string): string {
    TableSection(t.somaticHeading, t.somaticColumns, t.somaticRule, somatic)
  }

  /** The drug-gene table of a report. */
  function DrugGeneSection(t: Template, drugGene: string): string {
    TableSection(t.drugGeneHeading, t.drugGeneColumns, t.drugGeneRule, drugGene)
  }

  /** The closing section of a report. */
  function ConclusionSection(t: Template): string {
    t.conclusionHeading + t.conclusion
  }

  /** The report for the three tool outputs, section by section. */
  function Assemble(t: Template, summary: string, somatic: string, drugGene: string): string {
    t.title + SummarySection(t, summary) + SomaticSection(t, somatic) + DrugGeneSection(t, drugGene)
      + ConclusionSection(t)
  }

  /** The report for `inputs`, placeholders standing in for missing outputs. */
  function Report(inputs: map<string, string>): string {
    Assemble(Standard, Get(inputs, SummaryKey, NoSummary), Get(inputs, SomaticKey, NoSomatic),
             Get(inputs, DrugGeneKey, NoDrugGene))
  }

  lemma OccursAtEnd(s: string, sub: string)
    ensures OccursAt(s + sub, sub, |s|)
  {
    assert (s + sub)[|s|..|s| + |sub|] == sub;
  }

  lemma OccursAtExtend(s: string, sub: string, i: nat, more: string)
    requires OccursAt(s, sub, i)
    ensures OccursAt(s + more, sub, i)
  {
    assert (s + more)[i..i + |sub|] == s[i..i + |sub|];
  }

  /** Where each of five consecutive pieces sits in their concatenation. */
  lemma Pieces(a: string, b: string, c: string, d: string, e: string)
    ensures StartsWith(a + b + c + d + e, a)
    ensures OccursAt(a + b + c + d + e, b, |a|)
    ensures OccursAt(a + b + c + d + e, c, |a| + |b|)
    ensures OccursAt(a + b + c + d + e, d, |a| + |b| + |c|)
    ensures OccursAt(a + b + c + d + e, e, |a| + |b| + |c| + |d|)
  {
    assert (a + b + c + d + e)[..|a|] == a;
    OccursAtEnd(a, b);
    OccursAtExtend(a + b, b, |a|, c + d + e);
    OccursAtEnd(a + b, c);
    OccursAtExtend(a + b + c, c, |a| + |b|, d + e);
    OccursAtEnd(a + b + c, d);
    OccursAtExtend(a + b + c + d, d, |a| + |b| + |c|, e);
    OccursAtEnd(a + b + c + d, e);
  }

  /**
   * The report starts with the title, then come the summary section, the
   * somatic-interaction table, the drug-gene table and the conclusion, in
   * this order and with nothing between them; the report ends with the
   * conclusion.
   */
  lemma ReportLayout(t: Template, summary: string, somatic: string, drugGene: string)
    ensures var report := Assemble(t, summary, somatic, drugGene);
      var first := SummarySection(t, summary);
      var second := SomaticSection(t, somatic);
      var third := DrugGeneSection(t, drugGene);
      StartsWith(report, t.title) &&
      OccursAt(report, first, |t.title|) &&
      OccursAt(report, second, |t.title| + |first|) &&
      OccursAt(report, third, |t.title| + |first| + |second|) &&
      OccursAt(report, ConclusionSection(t), |t.title| + |first| + |second| + |third|) &&
      |report| == |t.title| + |first| + |second| + |third| + |ConclusionSection(t)|
  {
    Pieces(t.title, SummarySection(t, summary), SomaticSection(t, somatic), DrugGeneSection(t, drugGene),
           ConclusionSection(t));
  }

  /**
   * A missing output is replaced by its placeholder: the report for inputs
   * without a key is the report for the inputs with the placeholder text
   * under that key.
   */
  lemma SummaryPlaceholder(inputs: map<string, string>)
    requires SummaryKey !in inputs
    ensures Report(inputs) == Report(inputs[SummaryKey := NoSummary])
  {
    KeysDiffer();
    GetOther(inputs, SummaryKey, NoSummary, SomaticKey, NoSomatic);
    GetOther(inputs, SummaryKey, NoSummary, DrugGeneKey, NoDrugGene);
    SameOutputsSameReport(inputs, inputs[SummaryKey := NoSummary]);
  }

  lemma SomaticPlaceholder(inputs: map<string, string>)
    requires SomaticKey !in inputs
    ensures Report(inputs) == Report(inputs[SomaticKey := NoSomatic])
  {
    KeysDiffer();
    GetOther(inputs, SomaticKey, NoSomatic, SummaryKey, NoSummary);
    GetOther(inputs, SomaticKey, NoSomatic, DrugGeneKey, NoDrugGene);
    SameOutputsSameReport(inputs, inputs[SomaticKey := NoSomatic]);
  }

  lemma DrugGenePlaceholder(inputs: map<string, string>)
    requires DrugGeneKey !in inputs
    ensures Report(inputs) == Report(inputs[DrugGeneKey := NoDrugGene])
  {
    KeysDiffer();
    GetOther(inputs, DrugGeneKey, NoDrugGene, SummaryKey, NoSummary);
    GetOther(inputs, DrugGeneKey, NoDrugGene, SomaticKey, NoSomatic);
    SameOutputsSameReport(inputs, inputs[DrugGeneKey := NoDrugGene]);
  }

  lemma KeysDiffer()
    ensures SummaryKey != SomaticKey && SummaryKey != DrugGeneKey && SomaticKey != DrugGeneKey
  {
    assert SummaryKey[0] != SomaticKey[0] && SummaryKey[0] != DrugGeneKey[0] && SomaticKey[0] != DrugGeneKey[0];
  }

  /** Storing under one key leaves what `get` finds under another. */
  lemma GetOther(m: map<string, string>, key: string, value: string, other: string, default: string)
    requires key != other
    ensures Get(m[key := value], other, default) == Get(m, other, default)
  {
  }

  /** Inputs that give the same three outputs give the same report. */
  lemma SameOutputsSameReport(a: map<string, string>, b: map<string, string>)
    requires Get(a, SummaryKey, NoSummary) == Get(b, SummaryKey, NoSummary)
    requires Get(a, SomaticKey, NoSomatic) == Get(b, SomaticKey, NoSomatic)
    requires Get(a, DrugGeneKey, NoDrugGene) == Get(b, DrugGeneKey, NoDrugGene)
    ensures Report(a) == Report(b)
  {
  }

  /** The somatic placeholder is one non-blank line: its table is a single row. */
  lemma SomaticPlaceholderRow()
    ensures TableOf(Split(NoSomatic, '\n')) == TableRow(NoSomatic)
  {
    assert !IsSpace(NoSomatic[0]);
    PlaceholderRow(NoSomatic);
  }

  /** The drug-gene placeholder is one non-blank line: its table is a single row. */
  lemma DrugGenePlaceholderRow()
    ensures TableOf(Split(NoDrugGene, '\n')) == TableRow(NoDrugGene)
  {
    assert !IsSpace(NoDrugGene[0]);
    PlaceholderRow(NoDrugGene);
  }

  /** A non-blank text without line breaks is a table of one row. */
  lemma PlaceholderRow(text: string)
    requires '\n' !in text && !IsBlank(text)
    ensures TableOf(Split(text, '\n')) == TableRow(text)
  {
    SplitWithoutSeparator(text, '\n');
    StripEmptyIffBlank(text);
    assert TableOf([text]) == TableRow(text) + TableOf([]);
  }

  /** The report task: the tool outputs it was created with, by section name. */
  class ReportGenerationTask {
    const inputs: map<string, string>

    constructor (inputs: map<string, string>)
      ensures this.inputs == inputs
    {
      this.inputs := inputs;
    }

    /** `_run()`: the outputs, or their placeholders, made into the report. */
    method Run() returns (report: string)
      ensures report == Report(inputs)
    {
      var summary := Get(inputs, SummaryKey, NoSummary);
      var somatic := Get(inputs, SomaticKey, NoSomatic);
      var drugGene := Get(inputs, DrugGeneKey, NoDrugGene);
      report := Build(Standard, summary, somatic, drugGene);
    }
  }

  /** Appending pieces one at a time appends their concatenation. */
  lemma AppendPieces(r: string, a: string, b: string, c: string, d: string, e: string)
    ensures r + (a + b + c + d + e) == r + a + b + c + d + e
  {
  }

  /** The body of `_run()` after the lookups: the report, built by appending to a string. */
  method Build(t: Template, summary: string, somatic: string, drugGene: string) returns (report: string)
    ensures report == Assemble(t, summary, somatic, drugGene)
  {
    report := t.title;
    ghost var before := report;
    report := report + t.summaryHeading;
    report := report + "```\n" + summary + "\n```\n\n";
    AppendPieces(before, t.summaryHeading, "```\n", summary, "\n```\n\n", "");
    assert report == before + SummarySection(t, summary);
    before := report;
    report := report + t.somaticHeading;
    report := report + t.somaticColumns;
    report := report + t.somaticRule;
    report := AppendRows(report, somatic);
    report := report + "\n";
    AppendPieces(before, t.somaticHeading, t.somaticColumns, t.somaticRule, TableOf(Split(somatic, '\n')), "\n");
    assert report == before + SomaticSection(t, somatic);
    before := report;
    report := report + t.drugGeneHeading;
    report := report + t.drugGeneColumns;
    report := report + t.drugGeneRule;
    report := AppendRows(report, drugGene);
    report := report + "\n";
    AppendPieces(before, t.drugGeneHeading, t.drugGeneColumns, t.drugGeneRule, TableOf(Split(drugGene, '\n')),
                 "\n");
    assert report == before + DrugGeneSection(t, drugGene);
    before := report;
    report := report + t.conclusionHeading;
    report := report + t.conclusion;
    AppendPieces(before, t.conclusionHeading, t.conclusion, "", "", "");
  }

  /** One more round of the line loop appends the row of the next line, if any. */
  lemma AppendStep(report: string, lines: seq<string>, k: nat)
    requires k < |lines|
    ensures report + TableOf(lines[..k + 1]) == report + TableOf(lines[..k]) + RowOf(lines[k])
  {
    TableOfSnoc(lines[..k], lines[k]);
    AppendAssociative(report, TableOf(lines[..k]), RowOf(lines[k]));
    assert lines[..k + 1] == lines[..k] + [lines[k]];
  }

  /** The loop over `text.split("\n")`: a row for each line whose strip is not empty. */
  method AppendRows(report: string, text: string) returns (out: string)
    ensures out == report + TableOf(Split(text, '\n'))
  {
    var lines := Split(text, '\n');
    out := report;
    for k := 0 to |lines|
      invariant out == report + TableOf(lines[..k])
    {
      var line := lines[k];
      ghost var before := out;
      if Kept(line) {
        out := out + TableRow(line);
      }
      assert out == before + RowOf(line);
      AppendStep(report, lines, k);
    }
    assert lines[..|lines|] == lines;
  }
}
