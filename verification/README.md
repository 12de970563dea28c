# ViperScan in Dafny

This is a verified model of the decision logic of ViperScan, a small TCP
port scanner written in Python. Given a target and a port specification,
the tool does the following:

- It probes each port.
- It grabs a banner from every open port and guesses the operating system from it.
- It runs a few vulnerability checks: anonymous FTP, and missing HTTP security headers.
- It writes a JSON or HTML report.
- It compares the set of open ports with the last scan of the same target, kept in a two-table history store.

Every network, FTP, HTTP, clock and file-system call is a parameter. The
model takes the connect result, the bytes received, the decoder, the FTP
login result, the HTTP response headers and whether a file can be written
as given functions. Everything decided around those calls is modelled and
proved.

Modules, one per source file plus two shared ones:

- `Common` (common.dfy): `Option` and `Result`.
- `Text` (text.dfy): the Python string operations the code relies on, over `seq<char>`.
  - `lower()`, `in`, `endswith`
  - `split` for a one-character separator, with its join round trip
  - `strip()`, using the 29 `isspace()` code points
  - `int`/`str` on decimal digits
- `Grabber` (grabber.dfy): `get_banner`.
  - The transport choice.
  - The HEAD probe, with an RFC 9112 section 3 reader used to show that the probe is a well-formed request.
  - The 1024-byte read and the strip/first-line/sentinel clean-up.
- `Scanner` (scanner.dfy): `analyze_banner`, `scan_port`, and `start_scan` as a loop over the requested ports.
- `Venom` (venom.dfy): `check_http_headers` and `inject_venom`.
  - Response headers are a map keyed by lower-cased name, because `requests` looks headers up case-insensitively.
- `Database` (database.dfy): the `scans` and `ports` tables as a class holding two row sequences and their AUTOINCREMENT counters.
  - `save_scan_result` and `get_last_scan_ports` are its methods.
  - The queries are also specified as functions on the rows.
- `Reporter` (reporter.dfy): the JSON record, the HTML rows and the `.html` filename fix.
- `Cli` (cli.dfy): `parse_ports`, the report-writer choice, the old/new diff, and the order in which `main` runs parse, scan, checks, report and history.

Behaviour of the code that is easy to misread, and that the model keeps:

- `start_scan` returns its results in the order of the requested ports.
  `executor.map` yields results in input order, not completion order.
- A port is accepted from 0 to 65535. Outside that range `connect_ex`
  raises `OverflowError`, which `scan_port` swallows, so the port counts as
  closed.
- The banner is cut at the first `'\n'`, so a CRLF status line keeps its
  `'\r'`. `Grabber.CarriageReturnKept` shows this on a concrete response.
- `main` saves a scan to the history only when some port is open. A scan
  that finds nothing therefore leaves the last non-empty scan as the
  baseline for the next diff.

## Model

| member | source | states |
|---|---|---|
| Grabber.TransportFor | core/grabber.py:15-19 | TLS (with verification off) is used exactly for port 443 |
| Grabber.SessionFor | core/grabber.py:11-26 | the session connects to (ip, port), uses TLS exactly on 443, and sends the probe |
| Grabber.Recv | core/grabber.py:31 | at most 1024 bytes are read; they are the first pending bytes, and all of them when fewer are pending |
| Text.Trim | core/grabber.py:31 | `strip()`: the result is the slice of the text that starts after the leading droppable characters, everything before and after it is droppable, it is empty exactly when everything is, and otherwise it starts and ends with a kept character |
| Text.LowerLeavesNoCapital | core/scanner.py:11 | `lower()` leaves no ASCII capital and keeps every other character in place |
| Grabber.Cleanup | core/grabber.py:31-39 | an all-whitespace response gives "Unknown Service"; otherwise the banner is non-empty, has no line feed, and is the stripped text up to its first line feed |
| Grabber.GetBanner | core/grabber.py:4-42 | a failed connect/send/recv gives "No Banner / Timeout"; otherwise the clean-up of the decoded first 1024 bytes |
| Grabber.BannerIsOneLine | core/grabber.py:36-42 | every banner is one of the two sentinels or a non-empty single line |
| Grabber.CarriageReturnKept | core/grabber.py:31-37 | a CRLF response keeps the carriage return of its first line |
| Grabber.ProbeReadsBack | core/grabber.py:26 | for a host text with no CR, LF, space or tab, the probe parses as request line HEAD / HTTP/1.1 with the single field Host: ip |
| Scanner.AnalyzeBanner | core/scanner.py:7-19 | the guess is one of the four fixed strings, and "Unknown OS" exactly when none of the five keywords occurs in the lower-cased banner |
| Scanner.AnalyzeBannerIgnoresCase | core/scanner.py:11 | the guess depends only on the lower-cased banner |
| Scanner.ApacheOnUbuntu | core/scanner.py:12-17 | "Apache/2.4.1 (Ubuntu)" is classified as Debian/Ubuntu: ubuntu/debian outranks apache |
| Scanner.AnalyzeBannerIsFirstMatch | core/scanner.py:11-19 | the if/elif chain equals first-match-wins over the rule table (ubuntu, debian), (windows, microsoft), (apache) |
| Scanner.ScanPort | core/scanner.py:22-35 | a result exactly when the port is in 0..65535 and connect returned 0; it carries the port, the grabbed banner and the guess for that banner |
| Scanner.OpenPorts | core/scanner.py:41-56 | no more results than requested ports; every result is a probe result for a requested port |
| Scanner.OpenPortsAppend | core/scanner.py:44-54 | results follow the order of the requested ports: scanning a ++ b gives the results of a, then those of b |
| Scanner.OpenPortsComplete | core/scanner.py:44-54 | every requested port whose probe answers appears in the results |
| Scanner.StartScan | core/scanner.py:38-56 | the loop returns exactly the non-None probe results in port order, each for a requested port in range |
| Venom.HeaderIssues | core/venom.py:21-47 | X-Frame-Options issue iff that field is absent, CSP issue iff absent, Server issue with the value when Server is present; nothing else, at most 3, in that fixed order; empty when the request failed |
| Venom.CheckHttpHeaders | core/venom.py:21-47 | the step-by-step appends produce exactly the specified issue list |
| Venom.MissingHeadersAreRisks | core/venom.py:78-81 | both missing-header issues are shown as risks |
| Venom.ServerIssueShown | core/venom.py:78-81 | the Server issue is shown as a risk exactly when the server's own value contains "Risk" |
| Venom.OtherPortsUnchecked | core/venom.py:59-81 | ports other than 21, 80 and 8080 run no check and find nothing |
| Venom.ServerFieldIsFinding | core/venom.py:42-75 | on a web port a Server field alone sets the finding flag |
| Venom.ShowEach | core/venom.py:76-81 | one notice per issue, in order, risk or info by the "Risk" test |
| Venom.CheckPort | core/venom.py:60-81 | port 21 runs only the FTP check, 80/8080 only the header check, others nothing; the port's finding is an FTP login or a non-empty issue list |
| Venom.AnyFindingExists | core/venom.py:57-75 | the accumulated flag holds exactly when some listed port's check found something |
| Venom.InjectVenom | core/venom.py:50-84 | `vuln_found` iff some port's check found something; the notices are the per-port checks in port order, plus "nothing found" exactly when the flag is false |
| Database.PortSet | main.py:116 | the set holds exactly the port numbers of the results |
| Database.LatestScanId | core/database.py:87-100 | no id exactly when the target has no scan row; otherwise the largest id among that target's rows |
| Database.SaveKeepsWellFormed | core/database.py:55-71 | a save keeps ids increasing and below the counters and every port row attached to a saved scan; the new id is unused by existing port rows |
| Database.LastAfterSave | core/database.py:55-109 | right after a save for t, the last port set of t is the set of saved ports (empty, not None, when nothing was saved) |
| Database.OtherTargetsAfterSave | core/database.py:87-109 | a save for t leaves the answer for every other target unchanged |
| Database.ScanStore.constructor | core/database.py:12-43 | a fresh store has both tables empty |
| Database.ScanStore.SaveScanResult | core/database.py:45-75 | appends one scan row with an id above all existing ones and one port row per result under it; old rows are kept; reading back gives the saved set, other targets unchanged |
| Database.ScanStore.InsertPortRows | core/database.py:61-71 | one row per result, in order, with port and banner, under consecutive row ids |
| Database.ScanStore.GetLastScanPorts | core/database.py:78-112 | None exactly when the target was never scanned, otherwise the ports of its highest-id scan |
| Reporter.BuildJsonReport | utils/reporter.py:11-24 | the record is `JsonRecord` of its inputs: total_open_ports is the number of results; one entry per result, in order, with port and banner only |
| Reporter.SaveJsonReport | utils/reporter.py:6-32 | the outcome is fully determined: a write failure is caught and reported, never raised; a written file holds the whole record (`JsonRecord`: target, date, count, one entry per result) under the given name |
| Reporter.BuildHtmlRows | utils/reporter.py:72-84 | one row per result, in order, with port, "OPEN", banner and OS guess |
| Reporter.FixHtmlName | utils/reporter.py:96-98 | the name ends in ".html", and it is unchanged exactly when it already did; otherwise it is the old name extended |
| Reporter.FixHtmlNameIdempotent | utils/reporter.py:96-98 | fixing an already fixed name changes nothing |
| Reporter.SaveHtmlReport | utils/reporter.py:36-102 | the page written is `HtmlPageFor` the inputs, which counts the results and has their rows; it is written under the fixed name, and a write failure is raised |
| Cli.RangeSeq | main.py:52 | range(a, b+1) holds exactly a..b, ascending, with b-a+1 elements (none when b < a) |
| Cli.ParseList | main.py:54 | the values of the tokens in order when all are numerals, otherwise the error of the first bad token |
| Cli.ParseBounds | main.py:51 | succeeds exactly when there are two numeral pieces; a third piece is an error |
| Cli.ParsePorts | main.py:49-56 | a text with '-' is a range of exactly two numerals; otherwise a text with ',' is the list of its pieces; otherwise a single numeral |
| Cli.RangeSpecParses | main.py:50-52 | "a-b" parses as the integers a..b |
| Cli.DashBeforeComma | main.py:50-54 | a text holding both '-' and ',' (such as "1-3,5") is always an error |
| Cli.ListSpecParses | main.py:53-54 | "a,b,c" parses as the listed values, in order, duplicates kept |
| Cli.SingleSpecParses | main.py:55-56 | a bare number parses as a one-element list |
| Cli.ChooseReport | main.py:96-105 | no name writes nothing, no open port skips; ".json" goes unchanged to JSON, ".html" to HTML, anything else to JSON with ".json" appended |
| Cli.ReportPathsMatchFormat | main.py:100-101 | the HTML writer's name fix never changes a name chosen for it |
| Cli.DiffScans | main.py:113-134 | None is a baseline; "no changes" exactly when the sets are equal; otherwise new and closed are disjoint, new ⊆ current \ previous, closed ⊆ previous \ current, and (previous − closed) ∪ new = current |
| Cli.RescanReportsNoChanges | main.py:113-126 | scanning again right after a save, with the same open ports, reports no changes |
| Cli.RecordScan | main.py:108-137 | with ports open, the diff is against the history before the save; the save only appends (one scan row for the target and date, then one port row per result under its id), the history then answers the current set, and every other target's answer is unchanged; with none open the store is untouched |
| Cli.Run | main.py:59-137 | the run stops with the parse error exactly when `parse_ports` fails, and with a write error exactly when the HTML writer is chosen and its fixed file name cannot be written; both leave the history untouched; otherwise the scan result, the check notices, the report choice, what the chosen writer wrote (the JSON record for the target and the found ports at the chosen name, saved exactly when it can be written, or the HTML page for them at the fixed name, or nothing) and the diff are as specified, and with ports open the history is appended to and answers the current set while other targets' answers stay as they were |

## Left out

- Sockets, `connect_ex` and its timeout, and the TLS handshake are oracles (`Scanner.Network`). Two probes of the same port in one scan therefore get the same answer.
- UTF-8 decoding with `errors='ignore'` is an oracle from bytes to text.
- The thread pool is left out. The scan runs one port after another, which gives the same result order as `executor.map`, and the `threads` argument is dropped. As a consequence the model has no failure for a thread count of 0 or less: `ThreadPoolExecutor` raises `ValueError` for it (core/scanner.py:43), `main` catches only `KeyboardInterrupt` (main.py:83-90), so the real run stops before any report or save, while `Cli.Run` finishes normally.
- `ftplib` login and `requests.get` are oracles. The login is a yes/no per host. The GET returns the headers, or `None` when it raised.
- The SQLite engine, connections and `row_factory` are left out. Only the table contents and AUTOINCREMENT counters are modelled. `initialize_db` on an existing file is any store in a valid state.
- `datetime.now()` is a parameter. The source reads the clock separately for the database, the JSON report and the HTML page; the model passes one date.
- JSON serialisation, the HTML template text and CSS, and file writes are left out. Whether a path can be written is an oracle, and the reports are modelled as records.
- `argparse`, `gethostbyname`/`sys.exit`, `display_banner`, `KeyboardInterrupt`, the elapsed-time line, and all printing other than the outcomes kept as values (the check notices as `Venom.Notice`, the diff messages as `Cli.Change`, the skipped report as `SkipNoPorts`, the caught JSON error as `JsonErrorShown`), and all colours are left out.
- The alert lines for new and closed ports are printed in set iteration order. The model returns the two sets.
- Text.Lower models `lower()` for ASCII letters only. Every keyword the heuristic looks for is ASCII.
- Cli.ParsePorts accepts decimal digit strings only. `int()` also accepts surrounding whitespace, a leading '+', underscores between digits and non-ASCII digits; the model reports these as errors.
- Cli.Run treats the ParsePorts error as ending the run. The source raises `ValueError` out of `main`.
