/** The decision logic of the command-line driver (main.py): parsing the
    port specification, choosing the report writer from the output name,
    the old-versus-new comparison of open-port sets, and the order in which
    `main` runs scan, checks, report and history. */
module Cli {
  import opened Common
  import opened Text
  import Scanner
  import Venom
  import Database
  import Reporter

  // ------------------------------------------------------------ parse_ports

  /** The `ValueError`s `parse_ports` lets escape: `int()` refused a token,
      or the range form did not split into exactly two values. */
  datatype PortSpecError = NotANumber(token: string) | TooManyValues

  /** `range(a, b + 1)`: the integers from a to b, ascending; empty when b < a. */
  function RangeSeq(a: int, b: int): (r: seq<int>)
    ensures |r| == if b < a then 0 else b - a + 1
    ensures forall x :: x in r <==> a <= x <= b
    ensures forall i, j :: 0 <= i < j < |r| ==> r[i] < r[j]
  {
    var r := seq(if b < a then 0 else b - a + 1, k => a + k);
    RangeMembers(a, b, r);
    r
  }

  /** Every integer from a to b sits in the range, at its offset from a. */
  lemma RangeMembers(a: int, b: int, r: seq<int>)
    requires r == seq(if b < a then 0 else b - a + 1, k => a + k)
    ensures forall x :: x in r <==> a <= x <= b
  {
    forall x | a <= x <= b ensures x in r {
      assert r[x - a] == x;
    }
  }

  /** Every token is text `int()` accepts. */
  predicate AllNumerals(tokens: seq<string>) {
    forall k :: 0 <= k < |tokens| ==> IsNumeral(tokens[k])
  }

  /** `[int(p) for p in tokens]`: the values in token order, or the error
      of the first token `int()` refuses. */
  function ParseList(tokens: seq<string>): (r: Result<seq<int>, PortSpecError>)
    ensures r.Ok? <==> AllNumerals(tokens)
    ensures r.Ok? ==> |r.value| == |tokens| &&
                      forall k :: 0 <= k < |tokens| ==> r.value[k] == NumeralValue(tokens[k])
    ensures r.Err? ==> exists k :: 0 <= k < |tokens| && r.error == NotANumber(tokens[k]) &&
                                   !IsNumeral(tokens[k]) &&
                                   forall j :: 0 <= j < k ==> IsNumeral(tokens[j])
    decreases |tokens|
  {
    if tokens == [] then Ok([])
    else if !IsNumeral(tokens[0]) then Err(NotANumber(tokens[0]))
    else match ParseList(tokens[1..])
      case Ok(rest) => Ok([NumeralValue(tokens[0])] + rest)
      case Err(e) => Err(e)
  }

  /** `start, end = map(int, parts)`: the first two tokens are converted in
      order, and a third token is converted before the unpacking notices
      there are too many. */
  function ParseBounds(parts: seq<string>): (r: Result<(int, int), PortSpecError>)
    requires |parts| >= 2
    ensures r.Ok? <==> |parts| == 2 && IsNumeral(parts[0]) && IsNumeral(parts[1])
    ensures r.Ok? ==> r.value == (NumeralValue(parts[0]), NumeralValue(parts[1]))
  {
    if !IsNumeral(parts[0]) then Err(NotANumber(parts[0]))
    else if !IsNumeral(parts[1]) then Err(NotANumber(parts[1]))
    else if |parts| == 2 then Ok((NumeralValue(parts[0]), NumeralValue(parts[1])))
    else if !IsNumeral(parts[2]) then Err(NotANumber(parts[2]))
    else Err(TooManyValues)
  }

  /** `parse_ports`: a text with '-' is a range, else a text with ',' is a
      list, else a single port. */
  function ParsePorts(spec: string): (r: Result<seq<int>, PortSpecError>)
    ensures '-' in spec ==>
              var parts := Split(spec, '-');
              && (r.Ok? <==> |parts| == 2 && IsNumeral(parts[0]) && IsNumeral(parts[1]))
              && (r.Ok? ==> r.value == RangeSeq(NumeralValue(parts[0]), NumeralValue(parts[1])))
    ensures '-' !in spec && ',' in spec ==>
              && (r.Ok? <==> AllNumerals(Split(spec, ',')))
              && (r.Ok? ==> |r.value| == |Split(spec, ',')| &&
                            forall k :: 0 <= k < |r.value| ==> r.value[k] == NumeralValue(Split(spec, ',')[k]))
    ensures '-' !in spec && ',' !in spec ==>
              && (r.Ok? <==> IsNumeral(spec))
              && (r.Ok? ==> r.value == [NumeralValue(spec)])
  {
    if '-' in spec then
      SplitAtSeparator(spec, '-');
      match ParseBounds(Split(spec, '-'))
      case Ok((start, end)) => Ok(RangeSeq(start, end))
      case Err(e) => Err(e)
    else if ',' in spec then
      var parts := Split(spec, ',');
      var r := ParseList(parts);
      r
    else if IsNumeral(spec) then
      Ok([NumeralValue(spec)])
    else
      Err(NotANumber(spec))
  }

  /** A numeral holds neither separator. */
  lemma NumeralHasNoSeparator(t: string)
    requires IsNumeral(t)
    ensures '-' !in t && ',' !in t
  {
    forall c | c in t ensures c != '-' && c != ',' {
      var i :| 0 <= i < |t| && t[i] == c;
      assert IsDigit(t[i]);
    }
  }

  /** `"a-b"` reads back as the range a..b inclusive. */
  lemma RangeSpecParses(a: nat, b: nat)
    ensures ParsePorts(ShowNat(a) + "-" + ShowNat(b)) == Ok(RangeSeq(a, b))
  {
    var sa, sb := ShowNat(a), ShowNat(b);
    var spec := sa + "-" + sb;
    NumeralHasNoSeparator(sa);
    NumeralHasNoSeparator(sb);
    assert spec[|sa|] == '-';
    SplitAtFirst(sa, '-', sb);
    SplitWithoutSeparator(sb, '-');
    assert Split(spec, '-') == [sa, sb];
    ParseShowNat(a);
    ParseShowNat(b);
  }

  /** The range form is tried first, so a text with both '-' and ',' (such
      as "1-3,5") is always an error. */
  lemma {:induction false} DashBeforeComma(spec: string)
    requires '-' in spec && ',' in spec
    ensures ParsePorts(spec).Err?
  {
    var parts := Split(spec, '-');
    CharInSomePiece(spec, '-', ',');
    var k :| 0 <= k < |parts| && ',' in parts[k];
    if IsNumeral(parts[k]) {
      NumeralHasNoSeparator(parts[k]);
    }
  }

  /** The ports of a list written out as `str` values. */
  function ShowAll(ports: seq<nat>): (texts: seq<string>)
    ensures |texts| == |ports|
    ensures forall k :: 0 <= k < |ports| ==> texts[k] == ShowNat(ports[k])
  {
    seq(|ports|, k requires 0 <= k < |ports| => ShowNat(ports[k]))
  }

  /** `"a,b,c"` reads back as the listed values, in order, duplicates kept. */
  lemma ListSpecParses(ports: seq<nat>)
    requires |ports| >= 2
    ensures ParsePorts(Join(ShowAll(ports), ',')) == Ok(ports)
  {
    var texts := ShowAll(ports);
    var spec := Join(texts, ',');
    forall k | 0 <= k < |texts| ensures '-' !in texts[k] && ',' !in texts[k] && IsNumeral(texts[k]) {
      NumeralHasNoSeparator(texts[k]);
    }
    SplitOfJoin(texts, ',');
    assert '-' !in spec by {
      if '-' in spec {
        JoinMembers(texts, ',', '-');
      }
    }
    assert ',' in spec by {
      if ',' !in spec {
        SplitWithoutSeparator(spec, ',');
      }
    }
    assert AllNumerals(texts);
    var r := ParsePorts(spec);
    assert r.Ok? && |r.value| == |ports|;
    forall k | 0 <= k < |ports| ensures r.value[k] == ports[k] {
      ParseShowNat(ports[k]);
    }
    assert r.value == ports;
  }

  /** A bare number reads back as a one-element list. */
  lemma SingleSpecParses(n: nat)
    ensures ParsePorts(ShowNat(n)) == Ok([n])
  {
    NumeralHasNoSeparator(ShowNat(n));
    ParseShowNat(n);
  }

  // -------------------------------------------------------- report dispatch

  /** What step 5 of `main` does with the `-o` argument. */
  datatype ReportAction =
    | NoReport              // no output name given
    | SkipNoPorts           // a name, but nothing open
    | WriteJson(path: string)
    | WriteHtml(path: string)

  /** Lines 96-105 of main.py: no name (or an empty one) writes nothing; no
      open port skips the report; otherwise ".json" goes to the JSON writer
      unchanged, ".html" to the HTML writer, anything else to the JSON writer
      with ".json" appended. */
  function ChooseReport(output: Option<string>, openCount: nat): (a: ReportAction)
    ensures a.NoReport? <==> output.None? || output.value == []
    ensures a.SkipNoPorts? <==> output.Some? && output.value != [] && openCount == 0
    ensures a.WriteJson? ==>
              && EndsWith(a.path, ".json")
              && (EndsWith(output.value, ".json") ==> a.path == output.value)
              && (!EndsWith(output.value, ".json") ==> a.path == output.value + ".json")
    ensures a.WriteHtml? <==>
              output.Some? && openCount > 0 &&
              EndsWith(output.value, ".html") && !EndsWith(output.value, ".json")
    ensures a.WriteHtml? ==> a.path == output.value
  {
    match output
    case None => NoReport
    case Some(name) =>
      if name == [] then NoReport
      else if openCount == 0 then SkipNoPorts
      else if EndsWith(name, ".json") then WriteJson(name)
      else if EndsWith(name, ".html") then WriteHtml(name)
      else
        EndsWithAppended(name, ".json");
        WriteJson(name + ".json")
  }

  /** Every report written carries its format's extension, and the HTML
      writer's own filename fix never changes the name chosen here. */
  lemma ReportPathsMatchFormat(output: Option<string>, openCount: nat)
    ensures var a := ChooseReport(output, openCount);
            a.WriteHtml? ==> Reporter.FixHtmlName(a.path) == a.path
  {
  }

  // ----------------------------------------------------------- the diff

  /** What step 6 of `main` reports when it compares with the history. */
  datatype Change =
    | Baseline                                            // first scan of this target
    | NoChanges
    | Changed(newPorts: set<int>, closedPorts: set<int>)  // opened and closed since

  /** Lines 113-134 of main.py: no previous scan is a baseline; otherwise the
      newly opened ports and the closed ones, or "no changes" when both are
      empty. The two sets are exactly what turns the old set into the new. */
  function DiffScans(previous: Option<set<int>>, current: set<int>): (d: Change)
    ensures d.Baseline? <==> previous.None?
    ensures previous.Some? ==> (d.NoChanges? <==> current == previous.value)
    ensures d.Changed? ==>
              previous.Some? &&
              var before := previous.value;
              && d.newPorts <= current && d.newPorts !! before
              && d.closedPorts <= before && d.closedPorts !! current
              && d.newPorts !! d.closedPorts
              && (before - d.closedPorts) + d.newPorts == current
              && (d.newPorts != {} || d.closedPorts != {})
  {
    match previous
    case None => Baseline
    case Some(before) =>
      var newPorts := current - before;
      var closedPorts := before - current;
      if newPorts == {} && closedPorts == {} then
        assert current <= before && before <= current;
        NoChanges
      else Changed(newPorts, closedPorts)
  }

  /** Scanning again and finding the same open ports reports no changes. */
  lemma RescanReportsNoChanges(scans: seq<Database.ScanRow>, ports: seq<Database.PortRow>,
                               target: string, date: string, scanId: nat, firstId: nat,
                               results: seq<Scanner.PortResult>)
    requires forall r :: r in scans ==> r.id < scanId
    requires forall r :: r in ports ==> r.scanId != scanId
    ensures DiffScans(Database.LastPorts(scans + [Database.ScanRow(scanId, target, date)],
                                         ports + Database.NewPortRows(firstId, scanId, results), target),
                      Database.PortSet(results)) == NoChanges
  {
    Database.LastAfterSave(scans, ports, target, date, scanId, firstId, results);
  }

  /** The history after one save: the old rows are kept, one scan row for
      `target` taken on `date` is appended, and after it one port row per
      result, numbered from `nextPortId`, under that scan's id. */
  ghost predicate Saved(scansBefore: seq<Database.ScanRow>, portsBefore: seq<Database.PortRow>,
                        nextPortId: nat, scans: seq<Database.ScanRow>, ports: seq<Database.PortRow>,
                        target: string, date: string, results: seq<Scanner.PortResult>)
  {
    && |scans| == |scansBefore| + 1
    && scans == scansBefore + [Database.ScanRow(scans[|scansBefore|].id, target, date)]
    && ports == portsBefore + Database.NewPortRows(nextPortId, scans[|scansBefore|].id, results)
  }

  /** Step 6 of `main`: with some port open, read the target's last port
      set, compare it with the current one, then save this scan; with none
      open, touch nothing. */
  method RecordScan(store: Database.ScanStore, targetIp: string, openPorts: seq<Scanner.PortResult>,
                    scanDate: string) returns (change: Option<Change>)
    requires store.Valid()
    modifies store
    ensures store.Valid()
    ensures openPorts == [] ==> change.None? && unchanged(store)
    ensures openPorts != [] ==>
              change == Some(DiffScans(old(Database.LastPorts(store.scans, store.ports, targetIp)),
                                       Database.PortSet(openPorts)))
    ensures openPorts != [] ==> Saved(old(store.scans), old(store.ports), old(store.nextPortId),
                                      store.scans, store.ports, targetIp, scanDate, openPorts)
    ensures openPorts != [] ==>
              Database.LastPorts(store.scans, store.ports, targetIp) == Some(Database.PortSet(openPorts))
    ensures forall u :: u != targetIp ==>
              Database.LastPorts(store.scans, store.ports, u) ==
              old(Database.LastPorts(store.scans, store.ports, u))
  {
    change := None;
    if openPorts != [] {
      var previous := store.GetLastScanPorts(targetIp);
      var current := Database.PortSet(openPorts);
      change := Some(DiffScans(previous, current));
      var _ := store.SaveScanResult(targetIp, openPorts, scanDate);
    }
  }

  // ------------------------------------------------------------- main()

  /** What step 5 of `main` wrote. */
  datatype Written =
    | NothingWritten
    | JsonWritten(json: Reporter.JsonOutcome)            // saved, or the error printed
    | HtmlWritten(html: Reporter.ReportFile<Reporter.HtmlPage>)

  /** How a run of `main` ends. */
  datatype RunOutcome =
    | BadPortSpec(error: PortSpecError)     // `parse_ports` raised
    | HtmlWriteFailed(writeError: Reporter.WriteError)  // `save_html_report` raised
    | Finished(openPorts: seq<Scanner.PortResult>, notices: seq<Venom.Notice>,
               report: ReportAction, written: Written, change: Option<Change>)

  /** `main` after argument parsing and name resolution: parse the ports,
      scan, run the checks when something is open, write the report, then
      compare with and extend the history. A port specification `int()`
      refuses, or an HTML file that cannot be written, ends the run before
      the history is touched. */
  method Run(store: Database.ScanStore, targetIp: string, portSpec: string, output: Option<string>,
             net: Scanner.Network, ftpLogin: string -> bool, web: string -> Option<Venom.Headers>,
             canWrite: string -> bool, scanDate: string) returns (outcome: RunOutcome)
    requires store.Valid()
    modifies store
    ensures store.Valid()
    ensures ParsePorts(portSpec).Err? <==> outcome.BadPortSpec?
    ensures outcome.BadPortSpec? ==> outcome.error == ParsePorts(portSpec).error && unchanged(store)
    ensures outcome.HtmlWriteFailed? <==>
              && ParsePorts(portSpec).Ok?
              && var a := ChooseReport(output, |Scanner.OpenPorts(targetIp, ParsePorts(portSpec).value, net)|);
              && a.WriteHtml? && !canWrite(Reporter.FixHtmlName(a.path))
    ensures outcome.HtmlWriteFailed? ==>
              && var a := ChooseReport(output, |Scanner.OpenPorts(targetIp, ParsePorts(portSpec).value, net)|);
              && outcome.writeError == Reporter.WriteError(Reporter.FixHtmlName(a.path))
              && unchanged(store)
    ensures outcome.Finished? ==>
              var found := Scanner.OpenPorts(targetIp, ParsePorts(portSpec).value, net);
              && outcome.openPorts == found
              && (found == [] ==> outcome.notices == [])
              && (found != [] ==>
                    var vuln := exists k :: 0 <= k < |found| &&
                                  Venom.PortFinding(targetIp, found[k].port, ftpLogin, web);
                    outcome.notices == Venom.VenomNotices(targetIp, found, ftpLogin, web) +
                                       (if vuln then [] else [Venom.NothingFound]))
              && outcome.report == ChooseReport(output, |found|)
              && outcome.written == (match outcome.report
                   case WriteJson(p) =>
                     JsonWritten(if canWrite(p)
                                 then Reporter.JsonSaved(Reporter.ReportFile(p, Reporter.JsonRecord(targetIp, found, scanDate)))
                                 else Reporter.JsonErrorShown(Reporter.WriteError(p)))
                   case WriteHtml(p) =>
                     HtmlWritten(Reporter.ReportFile(Reporter.FixHtmlName(p), Reporter.HtmlPageFor(targetIp, found, scanDate)))
                   case _ => NothingWritten)
              && (found == [] ==> outcome.change.None? && unchanged(store))
              && (found != [] ==>
                    var previous := old(Database.LastPorts(store.scans, store.ports, targetIp));
                    outcome.change == Some(DiffScans(previous, Database.PortSet(found))))
              && (found != [] ==>
                    Saved(old(store.scans), old(store.ports), old(store.nextPortId),
                          store.scans, store.ports, targetIp, scanDate, found))
              && (found != [] ==>
                    Database.LastPorts(store.scans, store.ports, targetIp) == Some(Database.PortSet(found)))
    ensures forall u :: u != targetIp ==>
              Database.LastPorts(store.scans, store.ports, u) ==
              old(Database.LastPorts(store.scans, store.ports, u))
  {
    var parsed := ParsePorts(portSpec);
    if parsed.Err? {
      return BadPortSpec(parsed.error);
    }
    var openPorts := Scanner.StartScan(targetIp, parsed.value, net);
    var notices: seq<Venom.Notice> := [];
    if openPorts != [] {
      var vulnFound;
      notices, vulnFound := Venom.InjectVenom(targetIp, openPorts, ftpLogin, web);
    }
    var action := ChooseReport(output, |openPorts|);
    var written := NothingWritten;
    match action {
      case WriteJson(path) =>
        var json := Reporter.SaveJsonReport(targetIp, openPorts, path, scanDate, canWrite);
        written := JsonWritten(json);
      case WriteHtml(path) =>
        var html := Reporter.SaveHtmlReport(targetIp, openPorts, path, scanDate, canWrite);
        if html.Err? {
          return HtmlWriteFailed(html.error);
        }
        written := HtmlWritten(html.value);
      case _ =>
    }
    var change := RecordScan(store, targetIp, openPorts, scanDate);
    outcome := Finished(openPorts, notices, action, written, change);
  }
}
