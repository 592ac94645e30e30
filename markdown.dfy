/**
 * The Markdown vulnerability report the task shows in the build summary tab and in the
 * build log, and writes to the Markdown output file under an extra heading.
 */
module Markdown {
  import opened JsText
  import opened ScanReport

  const SummaryTitle := "### Summary"
  const ImageSeparator := "--- | ---"
  const VulnerabilitiesTitle := "### Vulnerabilities"
  /** The columns of the findings table. */
  const Columns := ["Score", "Name", "Severity", "Package name", "Package version", "Fixed version", "Vectors", "Description"]
  /** `Score | Name | ... | Description `, with the space before its line feed. */
  const TableHeader := Cells(Columns) + " "
  /** `--- | --- | ... | ---`, one cell per column. */
  const TableSeparator := Cells(Dashes(|Columns|))
  /** `> No vulnerabilities have been detected in the image.`; no line feed ends it. */
  const NoVulnerabilities := "> No vulnerabilities have been" + " detected in the image."
  const FileTitle := "## NeuVector scan report"

  /** `'### Summary\n\n'` */
  const SummaryHeading := Line(SummaryTitle) + Line("")
  /** `'### Vulnerabilities\n\n'` */
  const VulnerabilitiesHeading := Line(VulnerabilitiesTitle) + Line("")
  /** The two header lines of the findings table. */
  const TableHeading := Line(TableHeader) + Line(TableSeparator)

  /** `n` separator cells. */
  function Dashes(n: nat): (ds: seq<string>)
    ensures |ds| == n && forall i :: 0 <= i < n ==> ds[i] == "---"
  {
    if n == 0 then [] else Dashes(n - 1) + ["---"]
  }

  /** Table cells separated by ` | `. */
  function Cells(cs: seq<string>): string
    decreases |cs|
  {
    if |cs| <= 1 then (if cs == [] then "" else cs[0]) else cs[0] + " | " + Cells(cs[1..])
  }

  /** `Image | ${report.repository}:${report.tag}` */
  function ImageLine(r: Report): string
  {
    "Image | " + Render(r.repository) + ":" + Render(r.tag)
  }

  /** `label | value` */
  function RowText(caption: string, f: Field): string
  {
    caption + " | " + Render(f)
  }

  /** The summary row of a field that is present. */
  function SummaryRow(caption: string, f: Field): string
  {
    Line(RowText(caption, f))
  }

  /** A summary row is written only when the report's field is truthy. */
  function OptionalRow(caption: string, f: Field): string
  {
    if Truthy(f) then SummaryRow(caption, f) else ""
  }

  /** The summary heading, the image line and the line under it. */
  function SummaryStart(r: Report): string
  {
    SummaryHeading + Line(ImageLine(r)) + Line(ImageSeparator)
  }

  /** The summary section: heading, image line, separator, then the optional rows. */
  function Summary(r: Report): string
  {
    SummaryStart(r)
    + OptionalRow("Registry", r.registry)
    + OptionalRow("Repository", r.repository)
    + OptionalRow("Tag", r.tag)
    + OptionalRow("Image ID", r.imageId)
    + OptionalRow("Image Digest", r.digest)
    + OptionalRow("Base OS", r.baseOs)
  }

  /** The cells of a finding's row: score, linked name, severity, package, versions, vectors, description. */
  function RowCells(v: Vulnerability): seq<string>
  {
    [v.score, "[" + v.name + "](" + Render(v.link) + ")", v.severity,
     Render(v.packageName), Render(v.packageVersion), Render(v.fixedVersion),
     Render(v.vectors), Render(v.description)]
  }

  /** One table row: its cells separated by ` | `. */
  function RowLine(v: Vulnerability): string
  {
    Cells(RowCells(v))
  }

  /** The table rows of the findings, in report order. */
  function Rows(vs: seq<Vulnerability>): string
    decreases |vs|
  {
    if vs == [] then "" else Rows(vs[..|vs| - 1]) + Line(RowLine(vs[|vs| - 1]))
  }

  /** One finding more, one row more at the end. */
  lemma RowsStep(vs: seq<Vulnerability>, i: nat)
    requires i < |vs|
    ensures Rows(vs[..i + 1]) == Rows(vs[..i]) + Line(RowLine(vs[i]))
  {
    assert vs[..i + 1][..i] == vs[..i];
  }

  /** Appending the next row to a report that holds the first `i` rows gives the first `i + 1`. */
  lemma AppendStep(md: string, acc: string, vs: seq<Vulnerability>, i: nat)
    requires i < |vs| && acc == md + Rows(vs[..i])
    ensures acc + Line(RowLine(vs[i])) == md + Rows(vs[..i + 1])
  {
    RowsStep(vs, i);
  }

  /** The table when there are findings, the notice otherwise. */
  function Section(vs: seq<Vulnerability>): string
  {
    if |vs| > 0 then TableHeading + Rows(vs) else NoVulnerabilities
  }

  /** The report of the build summary tab and of the build log. */
  function MarkdownReport(r: Report): string
  {
    Summary(r) + Line("") + VulnerabilitiesHeading + Section(r.vulnerabilities)
  }

  /** `if (f) { md += `label | ${f}\n`; }` */
  method AppendRow(md: string, caption: string, f: Field) returns (md': string)
    ensures md' == md + OptionalRow(caption, f)
  {
    md' := md;
    if Truthy(f) {
      md' := md' + SummaryRow(caption, f);
    }
  }

  /** `for (let vulnerability of report.vulnerabilities) { md += `...\n`; }` */
  method AppendRows(md: string, vs: seq<Vulnerability>) returns (md': string)
    ensures md' == md + Rows(vs)
  {
    md' := md;
    for i := 0 to |vs|
      invariant md' == md + Rows(vs[..i])
    {
      AppendStep(md, md', vs, i);
      md' := md' + Line(RowLine(vs[i]));
    }
    assert vs[..|vs|] == vs;
  }

  /** Builds the report by appending to it piece by piece, as the task does. */
  method RenderMarkdown(r: Report) returns (md: string)
    ensures md == MarkdownReport(r)
  {
    md := "";
    md := md + SummaryHeading;
    md := md + Line(ImageLine(r));
    md := md + Line(ImageSeparator);
    assert md == SummaryStart(r);
    md := AppendRow(md, "Registry", r.registry);
    md := AppendRow(md, "Repository", r.repository);
    md := AppendRow(md, "Tag", r.tag);
    md := AppendRow(md, "Image ID", r.imageId);
    md := AppendRow(md, "Image Digest", r.digest);
    md := AppendRow(md, "Base OS", r.baseOs);
    md := md + Line("");
    md := md + VulnerabilitiesHeading;
    var vs := r.vulnerabilities;
    if |vs| > 0 {
      md := md + TableHeading;
      md := AppendRows(md, vs);
    } else {
      md := md + NoVulnerabilities;
    }
  }

  /** The Markdown output file: the report under a level-two heading. */
  function MarkdownFile(md: string): (file: string)
    ensures SplitLines(file) == [FileTitle, ""] + SplitLines(md)
  {
    var file := Line(FileTitle) + Line("") + md;
    LinesPair(FileTitle, "");
    SplitLinesOfLines([FileTitle, ""], md);
    file
  }

  /** The name of the build summary attachment: the image id, then `.md`. */
  function SummaryAttachmentName(r: Report): string
  {
    Render(r.imageId) + ".md"
  }

  // ----- The report line by line

  /** The row of a truthy field, none otherwise. */
  function OptionalLine(caption: string, f: Field): seq<string>
  {
    if Truthy(f) then [RowText(caption, f)] else []
  }

  /** The summary lines: heading, blank, image, separator, then a row per truthy field. */
  function SummaryLines(r: Report): seq<string>
  {
    [SummaryTitle, "", ImageLine(r), ImageSeparator]
    + OptionalLine("Registry", r.registry)
    + OptionalLine("Repository", r.repository)
    + OptionalLine("Tag", r.tag)
    + OptionalLine("Image ID", r.imageId)
    + OptionalLine("Image Digest", r.digest)
    + OptionalLine("Base OS", r.baseOs)
  }

  /** One table row per finding, in report order. */
  function RowLines(vs: seq<Vulnerability>): (ls: seq<string>)
    ensures |ls| == |vs| && forall i :: 0 <= i < |vs| ==> ls[i] == RowLine(vs[i])
  {
    seq(|vs|, i requires 0 <= i < |vs| => RowLine(vs[i]))
  }

  /**
   * The lines of the report: the summary, a blank line, the vulnerabilities heading and
   * a blank line; then either the table header, its separator, one row per finding and
   * the empty piece after the last line feed, or the single notice line.
   */
  function ReportLines(r: Report): seq<string>
  {
    var vs := r.vulnerabilities;
    FrontLines(r)
    + (if |vs| > 0 then [TableHeader, TableSeparator] + RowLines(vs) + [""] else [NoVulnerabilities])
  }

  /** Every text the report interpolates stays on one line. */
  predicate OneLineFields(r: Report)
  {
    SingleLine(Render(r.repository)) && SingleLine(Render(r.tag)) && SingleLine(Render(r.registry))
    && SingleLine(Render(r.imageId)) && SingleLine(Render(r.digest)) && SingleLine(Render(r.baseOs))
    && forall i :: 0 <= i < |r.vulnerabilities| ==> OneLineVulnerability(r.vulnerabilities[i])
  }

  predicate OneLineVulnerability(v: Vulnerability)
  {
    SingleLine(v.score) && SingleLine(v.name) && SingleLine(v.severity)
    && SingleLine(Render(v.link)) && SingleLine(Render(v.packageName))
    && SingleLine(Render(v.packageVersion)) && SingleLine(Render(v.fixedVersion))
    && SingleLine(Render(v.vectors)) && SingleLine(Render(v.description))
  }

  /** An optional row is the run of its optional lines. */
  lemma OptionalRowLines(caption: string, f: Field)
    ensures OptionalRow(caption, f) == Lines(OptionalLine(caption, f))
  {
    if Truthy(f) {
      assert Lines([RowText(caption, f)]) == Line(RowText(caption, f)) + Lines([]);
    }
  }

  /** The summary section is the run of the summary lines. */
  lemma SummaryAsLines(r: Report)
    ensures Summary(r) == Lines(SummaryLines(r))
  {
    var head := [SummaryTitle, "", ImageLine(r), ImageSeparator];
    LinesPair(SummaryTitle, "");
    LinesPair(ImageLine(r), ImageSeparator);
    assert head == [SummaryTitle, ""] + [ImageLine(r), ImageSeparator];
    LinesAppend([SummaryTitle, ""], [ImageLine(r), ImageSeparator]);
    assert Lines(head) == SummaryStart(r);
    var a1 := OptionalLine("Registry", r.registry);
    var a2 := OptionalLine("Repository", r.repository);
    var a3 := OptionalLine("Tag", r.tag);
    var a4 := OptionalLine("Image ID", r.imageId);
    var a5 := OptionalLine("Image Digest", r.digest);
    var a6 := OptionalLine("Base OS", r.baseOs);
    OptionalRowLines("Registry", r.registry);
    OptionalRowLines("Repository", r.repository);
    OptionalRowLines("Tag", r.tag);
    OptionalRowLines("Image ID", r.imageId);
    OptionalRowLines("Image Digest", r.digest);
    OptionalRowLines("Base OS", r.baseOs);
    LinesAppend(head, a1);
    LinesAppend(head + a1, a2);
    LinesAppend(head + a1 + a2, a3);
    LinesAppend(head + a1 + a2 + a3, a4);
    LinesAppend(head + a1 + a2 + a3 + a4, a5);
    LinesAppend(head + a1 + a2 + a3 + a4 + a5, a6);
  }

  /** The table rows are the run of the row lines. */
  lemma {:induction false} RowsAsLines(vs: seq<Vulnerability>)
    ensures Rows(vs) == Lines(RowLines(vs))
    decreases |vs|
  {
    if vs != [] {
      var init := vs[..|vs| - 1];
      RowsAsLines(init);
      assert RowLines(vs) == RowLines(init) + [RowLine(vs[|vs| - 1])];
      LinesSnoc(RowLines(init), RowLine(vs[|vs| - 1]));
    }
  }

  lemma OptionalLineSingle(caption: string, f: Field)
    requires SingleLine(caption) && SingleLine(Render(f))
    ensures AllSingleLine(OptionalLine(caption, f))
  {
    SingleLineConcat(caption, " | ");
    SingleLineConcat(caption + " | ", Render(f));
  }

  lemma SummaryLinesSingle(r: Report)
    requires OneLineFields(r)
    ensures AllSingleLine(SummaryLines(r))
  {
    var head := [SummaryTitle, "", ImageLine(r), ImageSeparator];
    assert SingleLine(ImageLine(r)) by {
      SingleLineConcat("Image | ", Render(r.repository));
      SingleLineConcat("Image | " + Render(r.repository), ":");
      SingleLineConcat("Image | " + Render(r.repository) + ":", Render(r.tag));
    }
    assert AllSingleLine(head);
    var a1 := OptionalLine("Registry", r.registry);
    var a2 := OptionalLine("Repository", r.repository);
    var a3 := OptionalLine("Tag", r.tag);
    var a4 := OptionalLine("Image ID", r.imageId);
    var a5 := OptionalLine("Image Digest", r.digest);
    var a6 := OptionalLine("Base OS", r.baseOs);
    OptionalLineSingle("Registry", r.registry);
    OptionalLineSingle("Repository", r.repository);
    OptionalLineSingle("Tag", r.tag);
    OptionalLineSingle("Image ID", r.imageId);
    OptionalLineSingle("Image Digest", r.digest);
    OptionalLineSingle("Base OS", r.baseOs);
    AllSingleLineAppend(head, a1);
    AllSingleLineAppend(head + a1, a2);
    AllSingleLineAppend(head + a1 + a2, a3);
    AllSingleLineAppend(head + a1 + a2 + a3, a4);
    AllSingleLineAppend(head + a1 + a2 + a3 + a4, a5);
    AllSingleLineAppend(head + a1 + a2 + a3 + a4 + a5, a6);
  }

  lemma RowLineSingle(v: Vulnerability)
    requires OneLineVulnerability(v)
    ensures SingleLine(RowLine(v))
  {
    var cs := RowCells(v);
    assert SingleLine(cs[1]) by {
      SingleLineConcat("[", v.name);
      SingleLineConcat("[" + v.name, "](");
      SingleLineConcat("[" + v.name + "](", Render(v.link));
      SingleLineConcat("[" + v.name + "](" + Render(v.link), ")");
    }
    assert AllSingleLine(cs);
    CellsSingle(cs);
  }

  lemma RowLinesSingle(vs: seq<Vulnerability>)
    requires forall i :: 0 <= i < |vs| ==> OneLineVulnerability(vs[i])
    ensures AllSingleLine(RowLines(vs))
  {
    forall i | 0 <= i < |vs| ensures SingleLine(RowLines(vs)[i]) {
      RowLineSingle(vs[i]);
    }
  }

  lemma HeadingLinesSingle()
    ensures AllSingleLine(["", VulnerabilitiesTitle, ""])
  {
    var ls := ["", VulnerabilitiesTitle, ""];
    assert SingleLine(VulnerabilitiesTitle);
    assert forall k :: 0 <= k < 3 ==> ls[k] == "" || ls[k] == VulnerabilitiesTitle;
  }

  lemma {:induction false} CellsSingle(cs: seq<string>)
    requires AllSingleLine(cs)
    ensures SingleLine(Cells(cs))
    decreases |cs|
  {
    if |cs| > 1 {
      CellsSingle(cs[1..]);
      SingleLineConcat(cs[0], " | ");
      SingleLineConcat(cs[0] + " | ", Cells(cs[1..]));
    }
  }

  lemma ColumnsSingle()
    ensures AllSingleLine(Columns)
  {
    assert SingleLine("Score") && SingleLine("Name") && SingleLine("Severity") && SingleLine("Package name");
    assert SingleLine("Package version") && SingleLine("Fixed version") && SingleLine("Vectors");
    assert SingleLine("Description");
  }

  lemma HeaderSingle()
    ensures SingleLine(TableHeader)
  {
    ColumnsSingle();
    CellsSingle(Columns);
    SingleLineConcat(Cells(Columns), " ");
  }

  lemma SeparatorSingle()
    ensures SingleLine(TableSeparator)
  {
    var ds := Dashes(|Columns|);
    assert SingleLine("---");
    assert AllSingleLine(ds);
    CellsSingle(ds);
  }

  lemma TableLinesSingle()
    ensures AllSingleLine([TableHeader, TableSeparator])
  {
    HeaderSingle();
    SeparatorSingle();
    var ls := [TableHeader, TableSeparator];
    assert forall k :: 0 <= k < 2 ==> ls[k] == TableHeader || ls[k] == TableSeparator;
  }

  lemma Associative(a: seq<string>, b: seq<string>, c: seq<string>)
    ensures a + (b + c) == a + b + c
  {
  }

  lemma NoticeSingle()
    ensures SingleLine(NoVulnerabilities)
  {
    assert SingleLine("> No vulnerabilities have been");
    assert SingleLine(" detected in the image.");
    SingleLineConcat("> No vulnerabilities have been", " detected in the image.");
  }

  /** The lines before the findings section. */
  function FrontLines(r: Report): seq<string>
  {
    SummaryLines(r) + ["", VulnerabilitiesTitle, ""]
  }

  lemma FrontAsLines(r: Report)
    requires OneLineFields(r)
    ensures Lines(FrontLines(r)) == Summary(r) + Line("") + VulnerabilitiesHeading
    ensures AllSingleLine(FrontLines(r))
  {
    var mid := ["", VulnerabilitiesTitle, ""];
    SummaryAsLines(r);
    SummaryLinesSingle(r);
    HeadingLinesSingle();
    assert Lines(mid) == Line("") + VulnerabilitiesHeading by {
      assert mid[1..] == [VulnerabilitiesTitle, ""];
      LinesPair(VulnerabilitiesTitle, "");
    }
    LinesAppend(SummaryLines(r), mid);
    AllSingleLineAppend(SummaryLines(r), mid);
  }

  lemma TableAsLines(vs: seq<Vulnerability>)
    requires forall i :: 0 <= i < |vs| ==> OneLineVulnerability(vs[i])
    ensures Lines([TableHeader, TableSeparator] + RowLines(vs)) == TableHeading + Rows(vs)
    ensures AllSingleLine([TableHeader, TableSeparator] + RowLines(vs))
  {
    var table := [TableHeader, TableSeparator];
    LinesPair(TableHeader, TableSeparator);
    TableLinesSingle();
    RowsAsLines(vs);
    RowLinesSingle(vs);
    LinesAppend(table, RowLines(vs));
    AllSingleLineAppend(table, RowLines(vs));
  }

  lemma TableReportLines(r: Report)
    requires OneLineFields(r) && |r.vulnerabilities| > 0
    ensures SplitLines(MarkdownReport(r)) == ReportLines(r)
  {
    var vs := r.vulnerabilities;
    var front := FrontLines(r);
    var rest := [TableHeader, TableSeparator] + RowLines(vs);
    FrontAsLines(r);
    TableAsLines(vs);
    LinesAppend(front, rest);
    AllSingleLineAppend(front, rest);
    assert MarkdownReport(r) == Lines(front + rest) + "";
    SplitLinesOfLines(front + rest, "");
    Associative(front, rest, [""]);
  }

  lemma NoticeReportLines(r: Report)
    requires OneLineFields(r) && |r.vulnerabilities| == 0
    ensures SplitLines(MarkdownReport(r)) == ReportLines(r)
  {
    var front := FrontLines(r);
    FrontAsLines(r);
    NoticeSingle();
    assert MarkdownReport(r) == Lines(front) + NoVulnerabilities;
    SplitLinesOfLines(front, NoVulnerabilities);
    SplitSingleLine(NoVulnerabilities);
  }

  /**
   * Read line by line, the report is the summary lines, the vulnerabilities heading
   * between blank lines, and then the table with one row per finding, or the notice.
   */
  lemma MarkdownLines(r: Report)
    requires OneLineFields(r)
    ensures SplitLines(MarkdownReport(r)) == ReportLines(r)
  {
    if |r.vulnerabilities| > 0 {
      TableReportLines(r);
    } else {
      NoticeReportLines(r);
    }
  }
}
