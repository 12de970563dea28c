/** The vulnerability checks (core/venom.py): which check runs for which
    open port, which header issues are reported and in what order, how each
    issue is shown, and whether anything was found. The FTP login and the
    HTTP GET are oracles. */
module Venom {
  import opened Common
  import opened Text
  import Scanner

  /** Response header fields as `requests` exposes them. Its lookups ignore
      case, so the map is keyed by the lower-cased field name. */
  type Headers = h: map<string, string> | forall name :: name in h ==> Lower(name) == name
    witness map[]

  /** `name in res.headers` */
  predicate HasHeader(h: Headers, name: string) {
    Lower(name) in h
  }

  /** `res.headers[name]` */
  function HeaderValue(h: Headers, name: string): string
    requires HasHeader(h, name)
  {
    h[Lower(name)]
  }

  const XfoIssue := "Missing 'X-Frame-Options' header (Clickjacking Risk)"
  const CspIssue := "Missing 'Content-Security-Policy' header (XSS Risk)"
  const ServerPrefix := "Server Header Revealed: "

  function ServerIssue(value: string): string {
    ServerPrefix + value
  }

  /** The URL the header check fetches. */
  function WebTarget(ip: string, port: nat): string {
    "http://" + ip + ":" + ShowNat(port)
  }

  /** Where an issue stands in the fixed reporting order. */
  function IssueRank(issue: string): nat {
    if issue == XfoIssue then 0 else if issue == CspIssue then 1 else 2
  }

  /** The three kinds of issue text are pairwise distinct. */
  lemma ServerIssueDistinct()
    ensures XfoIssue != CspIssue
    ensures forall value :: ServerIssue(value) != XfoIssue && ServerIssue(value) != CspIssue
  {
    assert XfoIssue[14] == 'm' && CspIssue[14] == 'n';
    forall value ensures ServerIssue(value) != XfoIssue && ServerIssue(value) != CspIssue {
      assert ServerIssue(value)[14] == 'R';
    }
  }

  /** `check_http_headers` given the outcome of the GET (`None` when it
      raised): an X-Frame-Options issue exactly when that field is absent,
      a Content-Security-Policy issue exactly when that one is absent, a
      Server issue carrying the value exactly when Server is present, in
      that order; nothing at all when the request failed. */
  function HeaderIssues(response: Option<Headers>): (issues: seq<string>)
    ensures response.None? ==> issues == []
    ensures response.Some? ==>
              var h := response.value;
              && (XfoIssue in issues <==> !HasHeader(h, "X-Frame-Options"))
              && (CspIssue in issues <==> !HasHeader(h, "Content-Security-Policy"))
              && (HasHeader(h, "Server") ==> ServerIssue(HeaderValue(h, "Server")) in issues)
              && (forall i :: 0 <= i < |issues| ==>
                    issues[i] == XfoIssue || issues[i] == CspIssue ||
                    (HasHeader(h, "Server") && issues[i] == ServerIssue(HeaderValue(h, "Server"))))
    ensures |issues| <= 3
    ensures forall i, j :: 0 <= i < j < |issues| ==> IssueRank(issues[i]) < IssueRank(issues[j])
  {
    match response
    case None => []
    case Some(h) =>
      IssueList(!HasHeader(h, "X-Frame-Options"), !HasHeader(h, "Content-Security-Policy"),
                if HasHeader(h, "Server") then Some(HeaderValue(h, "Server")) else None)
  }

  /** The issue list in reporting order, given which lookups failed and the
      Server value when there is one. */
  function IssueList(xfoMissing: bool, cspMissing: bool, server: Option<string>): (issues: seq<string>)
    ensures XfoIssue in issues <==> xfoMissing
    ensures CspIssue in issues <==> cspMissing
    ensures server.Some? ==> ServerIssue(server.value) in issues
    ensures forall i :: 0 <= i < |issues| ==>
              issues[i] == XfoIssue || issues[i] == CspIssue ||
              (server.Some? && issues[i] == ServerIssue(server.value))
    ensures |issues| <= 3
    ensures forall i, j :: 0 <= i < j < |issues| ==> IssueRank(issues[i]) < IssueRank(issues[j])
  {
    ServerIssueDistinct();
    (if xfoMissing then [XfoIssue] else [])
    + (if cspMissing then [CspIssue] else [])
    + (if server.Some? then [ServerIssue(server.value)] else [])
  }

  /** `check_http_headers(ip, port)`: appends the issues one check at a time. */
  method CheckHttpHeaders(response: Option<Headers>) returns (issues: seq<string>)
    ensures issues == HeaderIssues(response)
  {
    issues := [];
    if response.Some? {
      var headers := response.value;
      if !HasHeader(headers, "X-Frame-Options") {
        issues := issues + [XfoIssue];
      }
      if !HasHeader(headers, "Content-Security-Policy") {
        issues := issues + [CspIssue];
      }
      if HasHeader(headers, "Server") {
        issues := issues + [ServerIssue(HeaderValue(headers, "Server"))];
      }
    }
  }

  // ------------------------------------------------------ what is printed

  /** The lines `inject_venom` prints, apart from its heading. */
  datatype Notice =
    | FtpChecked              // checking port 21 for anonymous FTP
    | AnonymousFtp(ip: string) // critical: anonymous login accepted
    | WebChecked(port: int)   // checking a web port
    | RiskShown(issue: string) // "[!]" line
    | InfoShown(issue: string) // "[i]" line
    | NothingFound            // no obvious vulnerabilities

  /** An issue is shown as a risk exactly when its text contains "Risk". */
  function Shown(issue: string): Notice {
    if Contains(issue, "Risk") then RiskShown(issue) else InfoShown(issue)
  }

  function ShowIssues(issues: seq<string>): (notices: seq<Notice>)
    ensures |notices| == |issues|
    ensures forall i :: 0 <= i < |issues| ==> notices[i] == Shown(issues[i])
  {
    seq(|issues|, i requires 0 <= i < |issues| => Shown(issues[i]))
  }

  /** Both missing-header issues are shown as risks. */
  lemma MissingHeadersAreRisks()
    ensures Shown(XfoIssue) == RiskShown(XfoIssue)
    ensures Shown(CspIssue) == RiskShown(CspIssue)
  {
    assert OccursAt(XfoIssue, "Risk", 47);
    assert OccursAt(CspIssue, "Risk", 46);
  }

  /** The Server issue is a risk only when the server's own value says "Risk". */
  lemma ServerIssueShown(value: string)
    ensures Shown(ServerIssue(value)).RiskShown? <==> Contains(value, "Risk")
  {
    if Contains(value, "Risk") {
      RiskInValueShows(value);
    }
    if Contains(ServerIssue(value), "Risk") {
      RiskInIssueIsInValue(value);
    }
  }

  lemma RiskInValueShows(value: string)
    requires Contains(value, "Risk")
    ensures Contains(ServerIssue(value), "Risk")
  {
    var s := ServerIssue(value);
    var n := |ServerPrefix|;
    var i :| 0 <= i <= |value| - 4 && OccursAt(value, "Risk", i);
    assert s[n + i..n + i + 4] == value[i..i + 4];
    assert OccursAt(s, "Risk", n + i);
  }

  lemma RiskInIssueIsInValue(value: string)
    requires Contains(ServerIssue(value), "Risk")
    ensures Contains(value, "Risk")
  {
    var s := ServerIssue(value);
    var n := |ServerPrefix|;
    var i :| 0 <= i <= |s| - 4 && OccursAt(s, "Risk", i);
    RiskNotInPrefix(s, i);
    assert value[i - n..i - n + 4] == s[i..i + 4];
    assert OccursAt(value, "Risk", i - n);
  }

  /** "Risk" cannot start inside the prefix: its only 'R' is followed by 'e'. */
  lemma RiskNotInPrefix(s: string, i: int)
    requires |ServerPrefix| <= |s| && s[..|ServerPrefix|] == ServerPrefix
    requires OccursAt(s, "Risk", i)
    ensures i >= |ServerPrefix|
  {
    var n := |ServerPrefix|;
    assert s[i..i + 4] == "Risk";
    assert s[i] == s[i..i + 4][0] && s[i + 1] == s[i..i + 4][1];
    assert forall j :: 0 <= j < n ==> s[j] == ServerPrefix[j];
    assert forall j :: 0 <= j < n && ServerPrefix[j] == 'R' ==> j == 14;
    assert ServerPrefix[15] == 'e';
  }

  // ------------------------------------------------------------ dispatch

  /** The checks one open port gets: anonymous FTP login on 21, the header
      check on 80 and 8080, nothing elsewhere. */
  function PortNotices(ip: string, port: int, ftpLogin: string -> bool,
                       web: string -> Option<Headers>): seq<Notice>
  {
    if port == 21 then
      [FtpChecked] + (if ftpLogin(ip) then [AnonymousFtp(ip)] else [])
    else if port == 80 || port == 8080 then
      [WebChecked(port)] + ShowIssues(HeaderIssues(web(WebTarget(ip, port))))
    else []
  }

  /** The check of this port sets `vuln_found`: a successful anonymous
      login, or a non-empty issue list. */
  predicate PortFinding(ip: string, port: int, ftpLogin: string -> bool,
                        web: string -> Option<Headers>)
  {
    (port == 21 && ftpLogin(ip)) ||
    ((port == 80 || port == 8080) && HeaderIssues(web(WebTarget(ip, port))) != [])
  }

  /** The notices for a list of open ports, in list order. */
  function VenomNotices(ip: string, openPorts: seq<Scanner.PortResult>, ftpLogin: string -> bool,
                        web: string -> Option<Headers>): seq<Notice>
    decreases |openPorts|
  {
    if openPorts == [] then []
    else VenomNotices(ip, openPorts[..|openPorts| - 1], ftpLogin, web)
         + PortNotices(ip, openPorts[|openPorts| - 1].port, ftpLogin, web)
  }

  /** Ports other than 21, 80 and 8080 are never checked and never found. */
  lemma {:induction false} OtherPortsUnchecked(ip: string, openPorts: seq<Scanner.PortResult>,
                                               ftpLogin: string -> bool,
                                               web: string -> Option<Headers>)
    requires forall k :: 0 <= k < |openPorts| ==> openPorts[k].port !in {21, 80, 8080}
    ensures VenomNotices(ip, openPorts, ftpLogin, web) == []
    ensures forall k :: 0 <= k < |openPorts| ==> !PortFinding(ip, openPorts[k].port, ftpLogin, web)
    decreases |openPorts|
  {
    if openPorts != [] {
      var earlier := openPorts[..|openPorts| - 1];
      assert forall k :: 0 <= k < |earlier| ==> earlier[k] == openPorts[k];
      OtherPortsUnchecked(ip, earlier, ftpLogin, web);
    }
  }

  /** A Server field is a finding on its own, whatever else the response has. */
  lemma ServerFieldIsFinding(ip: string, port: int, ftpLogin: string -> bool,
                             web: string -> Option<Headers>)
    requires port == 80 || port == 8080
    requires var r := web(WebTarget(ip, port)); r.Some? && HasHeader(r.value, "Server")
    ensures PortFinding(ip, port, ftpLogin, web)
  {
    var issues := HeaderIssues(web(WebTarget(ip, port)));
    assert |issues| > 0;
  }

  /** The inner loop of `inject_venom`: one line per issue, in order. */
  method ShowEach(issues: seq<string>) returns (notices: seq<Notice>)
    ensures notices == ShowIssues(issues)
  {
    notices := [];
    for j := 0 to |issues|
      invariant notices == ShowIssues(issues[..j])
    {
      notices := notices + [Shown(issues[j])];
    }
    assert issues[..|issues|] == issues;
  }

  /** The body of the `inject_venom` loop for one open port. */
  method CheckPort(ip: string, port: int, ftpLogin: string -> bool,
                   web: string -> Option<Headers>) returns (notices: seq<Notice>, found: bool)
    ensures notices == PortNotices(ip, port, ftpLogin, web)
    ensures found == PortFinding(ip, port, ftpLogin, web)
  {
    notices := [];
    found := false;
    if port == 21 {
      notices := [FtpChecked];
      if ftpLogin(ip) {
        notices := notices + [AnonymousFtp(ip)];
        found := true;
      }
    } else if port == 80 || port == 8080 {
      var issues := CheckHttpHeaders(web(WebTarget(ip, port)));
      var shown := [];
      if issues != [] {
        found := true;
        shown := ShowEach(issues);
      }
      notices := [WebChecked(port)] + shown;
    }
  }

  /** Some port's check sets `vuln_found`. */
  predicate AnyFinding(ip: string, openPorts: seq<Scanner.PortResult>, ftpLogin: string -> bool,
                       web: string -> Option<Headers>)
    decreases |openPorts|
  {
    openPorts != [] &&
    (AnyFinding(ip, openPorts[..|openPorts| - 1], ftpLogin, web) ||
     PortFinding(ip, openPorts[|openPorts| - 1].port, ftpLogin, web))
  }

  /** `AnyFinding` holds exactly when the check of some listed port finds something. */
  lemma {:induction false} AnyFindingExists(ip: string, openPorts: seq<Scanner.PortResult>,
                                            ftpLogin: string -> bool, web: string -> Option<Headers>)
    ensures AnyFinding(ip, openPorts, ftpLogin, web) <==>
              exists k :: 0 <= k < |openPorts| && PortFinding(ip, openPorts[k].port, ftpLogin, web)
    decreases |openPorts|
  {
    if openPorts != [] {
      var n := |openPorts| - 1;
      var earlier := openPorts[..n];
      AnyFindingExists(ip, earlier, ftpLogin, web);
      assert forall k :: 0 <= k < n ==> earlier[k] == openPorts[k];
    }
  }

  /** `inject_venom`: run each open port's check in order, show every issue
      as a risk or as information, and say so when nothing was found. */
  method InjectVenom(ip: string, openPorts: seq<Scanner.PortResult>, ftpLogin: string -> bool,
                     web: string -> Option<Headers>) returns (notices: seq<Notice>, vulnFound: bool)
    ensures vulnFound <==>
              exists k :: 0 <= k < |openPorts| && PortFinding(ip, openPorts[k].port, ftpLogin, web)
    ensures notices == VenomNotices(ip, openPorts, ftpLogin, web) +
                       (if vulnFound then [] else [NothingFound])
  {
    notices := [];
    vulnFound := false;
    var i := 0;
    while i < |openPorts|
      invariant 0 <= i <= |openPorts|
      invariant notices == VenomNotices(ip, openPorts[..i], ftpLogin, web)
      invariant vulnFound == AnyFinding(ip, openPorts[..i], ftpLogin, web)
    {
      assert openPorts[..i + 1][..i] == openPorts[..i];
      var portNotices, found := CheckPort(ip, openPorts[i].port, ftpLogin, web);
      notices := notices + portNotices;
      vulnFound := vulnFound || found;
      i := i + 1;
    }
    assert openPorts[..i] == openPorts;
    AnyFindingExists(ip, openPorts, ftpLogin, web);
    if !vulnFound {
      notices := notices + [NothingFound];
    }
  }
}
