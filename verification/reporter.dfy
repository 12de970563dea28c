/** Report construction (utils/reporter.py): the JSON report record, the
    rows of the HTML table and the `.html` filename fix. Serialisation, the
    HTML template text and the file system are not modelled; whether a
    file can be written is an oracle. */
module Reporter {
  import opened Common
  import opened Text
  import Scanner

  /** One element of `scan_results`: the port and its banner, no OS guess. */
  datatype JsonEntry = JsonEntry(port: int, serviceBanner: string)

  /** The dictionary `save_json_report` serialises. */
  datatype JsonReport = JsonReport(target: string, scanDate: string, totalOpenPorts: nat,
                                   scanResults: seq<JsonEntry>)

  /** One `<tr>` of the HTML table. */
  datatype HtmlRow = HtmlRow(port: int, status: string, banner: string, osGuess: string)

  /** What the HTML page shows: the summary and the table rows. */
  datatype HtmlPage = HtmlPage(target: string, date: string, openPortsFound: nat, rows: seq<HtmlRow>)

  /** A file as written: where, and what. */
  datatype ReportFile<+Body> = ReportFile(path: string, body: Body)

  /** The exception `open` or `write` raised. */
  datatype WriteError = WriteError(path: string)

  /** The status cell of every row. */
  const OpenStatus := "OPEN"

  // ------------------------------------------------------------------ JSON

  /** The record `save_json_report` builds for `openPorts`. */
  function JsonRecord(target: string, openPorts: seq<Scanner.PortResult>, scanDate: string): JsonReport {
    JsonReport(target, scanDate, |openPorts|,
               seq(|openPorts|, k requires 0 <= k < |openPorts| =>
                     JsonEntry(openPorts[k].port, openPorts[k].banner)))
  }

  /** The page `save_html_report` renders for `openPorts`. */
  function HtmlPageFor(target: string, openPorts: seq<Scanner.PortResult>, date: string): HtmlPage {
    HtmlPage(target, date, |openPorts|, HtmlRowsFor(openPorts))
  }

  /** The table rows `save_html_report` renders for `openPorts`. */
  function HtmlRowsFor(openPorts: seq<Scanner.PortResult>): seq<HtmlRow> {
    seq(|openPorts|, k requires 0 <= k < |openPorts| =>
          HtmlRow(openPorts[k].port, OpenStatus, openPorts[k].banner, openPorts[k].osGuess))
  }

  /** The JSON record: the count is the number of results, and there is one
      entry per result, in order, with its port and its banner. */
  method BuildJsonReport(target: string, openPorts: seq<Scanner.PortResult>, scanDate: string)
    returns (report: JsonReport)
    ensures report == JsonRecord(target, openPorts, scanDate)
    ensures report.target == target && report.scanDate == scanDate
    ensures report.totalOpenPorts == |openPorts| == |report.scanResults|
    ensures forall k :: 0 <= k < |openPorts| ==>
              report.scanResults[k] == JsonEntry(openPorts[k].port, openPorts[k].banner)
  {
    report := JsonReport(target, scanDate, |openPorts|, []);
    for i := 0 to |openPorts|
      invariant report.target == target && report.scanDate == scanDate
      invariant report.totalOpenPorts == |openPorts|
      invariant |report.scanResults| == i
      invariant forall k :: 0 <= k < i ==>
                  report.scanResults[k] == JsonEntry(openPorts[k].port, openPorts[k].banner)
    {
      var entry := JsonEntry(openPorts[i].port, openPorts[i].banner);
      report := report.(scanResults := report.scanResults + [entry]);
    }
  }

  /** The outcome of `save_json_report`: the file was written, or the error
      was printed. Either way the call returns normally. */
  datatype JsonOutcome = JsonSaved(file: ReportFile<JsonReport>) | JsonErrorShown(error: WriteError)

  /** `save_json_report`: build the record, then write it; a failed write is
      caught and reported, never raised. */
  method SaveJsonReport(target: string, openPorts: seq<Scanner.PortResult>, filename: string,
                        scanDate: string, canWrite: string -> bool) returns (outcome: JsonOutcome)
    ensures outcome == if canWrite(filename) then JsonSaved(ReportFile(filename, JsonRecord(target, openPorts, scanDate)))
                       else JsonErrorShown(WriteError(filename))
    ensures outcome.JsonSaved? <==> canWrite(filename)
    ensures outcome.JsonErrorShown? ==> outcome.error == WriteError(filename)
    ensures outcome.JsonSaved? ==>
              var report := outcome.file.body;
              && outcome.file.path == filename
              && report.target == target && report.scanDate == scanDate
              && report.totalOpenPorts == |openPorts| == |report.scanResults|
              && forall k :: 0 <= k < |openPorts| ==>
                   report.scanResults[k] == JsonEntry(openPorts[k].port, openPorts[k].banner)
  {
    var report := BuildJsonReport(target, openPorts, scanDate);
    if canWrite(filename) {
      outcome := JsonSaved(ReportFile(filename, report));
    } else {
      outcome := JsonErrorShown(WriteError(filename));
    }
  }

  // ------------------------------------------------------------------ HTML

  /** `rows += …` for each result: one row per result, in order, with its
      port, "OPEN", its banner and its OS guess. */
  method BuildHtmlRows(openPorts: seq<Scanner.PortResult>) returns (rows: seq<HtmlRow>)
    ensures rows == HtmlRowsFor(openPorts)
    ensures |rows| == |openPorts|
    ensures forall k :: 0 <= k < |rows| ==>
              rows[k] == HtmlRow(openPorts[k].port, OpenStatus, openPorts[k].banner, openPorts[k].osGuess)
  {
    rows := [];
    for i := 0 to |openPorts|
      invariant |rows| == i
      invariant forall k :: 0 <= k < i ==>
                  rows[k] == HtmlRow(openPorts[k].port, OpenStatus, openPorts[k].banner, openPorts[k].osGuess)
    {
      var result := openPorts[i];
      rows := rows + [HtmlRow(result.port, OpenStatus, result.banner, result.osGuess)];
    }
  }

  /** The filename fix: the name ends in ".html" afterwards, and is kept as
      it is exactly when it already did. */
  function FixHtmlName(filename: string): (r: string)
    ensures EndsWith(r, ".html")
    ensures r == filename <==> EndsWith(filename, ".html")
    ensures |filename| <= |r| && r[..|filename|] == filename
  {
    if EndsWith(filename, ".html") then filename
    else
      EndsWithAppended(filename, ".html");
      filename + ".html"
  }

  /** Fixing a fixed name changes nothing. */
  lemma FixHtmlNameIdempotent(filename: string)
    ensures FixHtmlName(FixHtmlName(filename)) == FixHtmlName(filename)
  {
    var once := FixHtmlName(filename);
    assert EndsWith(once, ".html");
  }

  /** `save_html_report`: the page carries the target, the date, the number
      of results and one row per result; it is written under the fixed
      name. The write is not guarded, so a failure is raised to the caller. */
  method SaveHtmlReport(target: string, openPorts: seq<Scanner.PortResult>, filename: string,
                        date: string, canWrite: string -> bool)
    returns (outcome: Result<ReportFile<HtmlPage>, WriteError>)
    ensures outcome.Ok? <==> canWrite(FixHtmlName(filename))
    ensures outcome.Ok? ==> outcome.value == ReportFile(FixHtmlName(filename), HtmlPageFor(target, openPorts, date))
    ensures outcome.Err? ==> outcome.error == WriteError(FixHtmlName(filename))
    ensures outcome.Ok? ==>
              var page := outcome.value.body;
              && outcome.value.path == FixHtmlName(filename)
              && page.target == target && page.date == date
              && page.openPortsFound == |openPorts| == |page.rows|
              && forall k :: 0 <= k < |openPorts| ==>
                   page.rows[k] == HtmlRow(openPorts[k].port, OpenStatus, openPorts[k].banner,
                                           openPorts[k].osGuess)
  {
    var rows := BuildHtmlRows(openPorts);
    var page := HtmlPage(target, date, |openPorts|, rows);
    var path := filename;
    if !EndsWith(path, ".html") {
      path := path + ".html";
    }
    if canWrite(path) {
      outcome := Ok(ReportFile(path, page));
    } else {
      outcome := Err(WriteError(path));
    }
  }
}
