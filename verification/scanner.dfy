/** The port prober and scan loop (core/scanner.py): the OS heuristic, the
    probe of one port and the collection of the open ones. */
module Scanner {
  import opened Common
  import opened Text
  import Grabber

  const LinuxDebian := "Linux (Debian/Ubuntu)"
  const WindowsServer := "Windows Server"
  const LikelyUnix := "Likely Linux/Unix"
  const UnknownOs := "Unknown OS"

  /** The four answers of the OS heuristic. */
  predicate IsOsGuess(guess: string) {
    guess == LinuxDebian || guess == WindowsServer || guess == LikelyUnix || guess == UnknownOs
  }

  /** The five keywords the heuristic looks for. */
  const OsKeywords: seq<string> := ["ubuntu", "debian", "windows", "microsoft", "apache"]

  /** Some keyword occurs in the (already lower-cased) text. */
  predicate MentionsKeyword(lower: string) {
    exists k | 0 <= k < |OsKeywords| :: Contains(lower, OsKeywords[k])
  }

  /** `analyze_banner`: lower-case the banner, then the first matching rule
      wins; "Unknown OS" exactly when no keyword occurs. */
  function AnalyzeBanner(banner: string): (guess: string)
    ensures IsOsGuess(guess)
    ensures guess == UnknownOs <==> !MentionsKeyword(Lower(banner))
  {
    var lower := Lower(banner);
    assert MentionsKeyword(lower) <==>
           Contains(lower, OsKeywords[0]) || Contains(lower, OsKeywords[1]) ||
           Contains(lower, OsKeywords[2]) || Contains(lower, OsKeywords[3]) ||
           Contains(lower, OsKeywords[4]);
    if Contains(lower, "ubuntu") || Contains(lower, "debian") then LinuxDebian
    else if Contains(lower, "windows") || Contains(lower, "microsoft") then WindowsServer
    else if Contains(lower, "apache") then LikelyUnix
    else UnknownOs
  }

  /** The heuristic sees only the lower-cased banner. */
  lemma AnalyzeBannerIgnoresCase(banner: string)
    ensures AnalyzeBanner(Lower(banner)) == AnalyzeBanner(banner)
  {
    assert Lower(Lower(banner)) == Lower(banner);
  }

  /** "ubuntu" is tested before "apache". */
  lemma ApacheOnUbuntu()
    ensures AnalyzeBanner("Apache/2.4.1 (Ubuntu)") == LinuxDebian
  {
    var lower := Lower("Apache/2.4.1 (Ubuntu)");
    assert lower[14..20] == "ubuntu";
    assert OccursAt(lower, "ubuntu", 14);
  }

  // ------------------------------------------- the heuristic as a rule table

  /** A rule: any of its keywords in the text gives its guess. */
  datatype Rule = Rule(keywords: seq<string>, guess: string)

  predicate Matches(rule: Rule, text: string) {
    exists k | 0 <= k < |rule.keywords| :: Contains(text, rule.keywords[k])
  }

  /** The heuristic's rules, highest priority first. */
  const OsRules: seq<Rule> := [
    Rule(["ubuntu", "debian"], LinuxDebian),
    Rule(["windows", "microsoft"], WindowsServer),
    Rule(["apache"], LikelyUnix)
  ]

  /** First match wins: the guess of the first rule that matches. */
  function FirstMatch(rules: seq<Rule>, text: string, fallback: string): string {
    if rules == [] then fallback
    else if Matches(rules[0], text) then rules[0].guess
    else FirstMatch(rules[1..], text, fallback)
  }

  /** The answer is rule i's guess when rule i matches and no earlier one does. */
  lemma {:induction false} FirstMatchPicks(rules: seq<Rule>, text: string, fallback: string, i: nat)
    requires i < |rules| && Matches(rules[i], text)
    requires forall j :: 0 <= j < i ==> !Matches(rules[j], text)
    ensures FirstMatch(rules, text, fallback) == rules[i].guess
  {
    if i > 0 {
      assert !Matches(rules[0], text);
      FirstMatchPicks(rules[1..], text, fallback, i - 1);
    }
  }

  /** The answer is the fallback when no rule matches. */
  lemma {:induction false} FirstMatchFallback(rules: seq<Rule>, text: string, fallback: string)
    requires forall j :: 0 <= j < |rules| ==> !Matches(rules[j], text)
    ensures FirstMatch(rules, text, fallback) == fallback
  {
    if rules != [] {
      assert !Matches(rules[0], text);
      FirstMatchFallback(rules[1..], text, fallback);
    }
  }

  /** The if/elif chain is the first-match classifier over the rule table. */
  lemma AnalyzeBannerIsFirstMatch(banner: string)
    ensures AnalyzeBanner(banner) == FirstMatch(OsRules, Lower(banner), UnknownOs)
  {
    var lower := Lower(banner);
    var r0, r1, r2 := OsRules[0], OsRules[1], OsRules[2];
    assert Matches(r0, lower) <==> Contains(lower, "ubuntu") || Contains(lower, "debian") by {
      assert |r0.keywords| == 2 && r0.keywords[0] == "ubuntu" && r0.keywords[1] == "debian";
    }
    assert Matches(r1, lower) <==> Contains(lower, "windows") || Contains(lower, "microsoft") by {
      assert |r1.keywords| == 2 && r1.keywords[0] == "windows" && r1.keywords[1] == "microsoft";
    }
    assert Matches(r2, lower) <==> Contains(lower, "apache") by {
      assert |r2.keywords| == 1 && r2.keywords[0] == "apache";
    }
    if Matches(r0, lower) {
      FirstMatchPicks(OsRules, lower, UnknownOs, 0);
    } else if Matches(r1, lower) {
      FirstMatchPicks(OsRules, lower, UnknownOs, 1);
    } else if Matches(r2, lower) {
      FirstMatchPicks(OsRules, lower, UnknownOs, 2);
    } else {
      FirstMatchFallback(OsRules, lower, UnknownOs);
    }
  }

  // ------------------------------------------------------ probing one port

  /** A port that accepted a connection: number, banner, OS guess. */
  datatype PortResult = PortResult(port: int, banner: string, osGuess: string)

  /** What `connect_ex` did: raised, or returned an error number (0 = connected). */
  datatype ConnectOutcome = Raised | Returned(code: int)

  /** The network as the prober sees it: the answer of `connect_ex` with a
      one-second timeout, the grabber's exchange and the UTF-8 decoder. */
  datatype Network = Network(
    connect: (string, int) -> ConnectOutcome,
    exchange: Grabber.Session -> Grabber.Exchange,
    decode: seq<Grabber.byte> -> string)

  /** The ports a socket address accepts; outside this range `connect_ex`
      raises `OverflowError`. */
  predicate IsPortNumber(port: int) {
    0 <= port <= 65535
  }

  /** `scan_port`: a result exactly when the connect returned 0; it carries
      the grabbed banner and the heuristic's guess for that banner. */
  function ScanPort(ip: string, port: int, net: Network): (r: Option<PortResult>)
    ensures r.Some? <==> IsPortNumber(port) && net.connect(ip, port) == Returned(0)
    ensures r.Some? ==> r.value.port == port && IsOsGuess(r.value.osGuess)
    ensures r.Some? ==> r.value.banner == Grabber.GetBanner(ip, port, net.exchange, net.decode)
    ensures r.Some? ==> r.value.osGuess == AnalyzeBanner(r.value.banner)
  {
    if !IsPortNumber(port) then None
    else match net.connect(ip, port)
      case Returned(0) =>
        var banner := Grabber.GetBanner(ip, port, net.exchange, net.decode);
        Some(PortResult(port, banner, AnalyzeBanner(banner)))
      case _ => None
  }

  // ----------------------------------------------------------- the scan

  /** The probe results that are not `None`, in the order of the ports. */
  function OpenPorts(ip: string, ports: seq<int>, net: Network): (results: seq<PortResult>)
    ensures |results| <= |ports|
    ensures forall r :: r in results ==> r.port in ports && ScanPort(ip, r.port, net) == Some(r)
    decreases |ports|
  {
    if ports == [] then []
    else
      var earlier := OpenPorts(ip, ports[..|ports| - 1], net);
      match ScanPort(ip, ports[|ports| - 1], net)
      case Some(r) => earlier + [r]
      case None => earlier
  }

  /** Scanning two lists one after the other gives the two results in order. */
  lemma {:induction false} OpenPortsAppend(ip: string, a: seq<int>, b: seq<int>, net: Network)
    ensures OpenPorts(ip, a + b, net) == OpenPorts(ip, a, net) + OpenPorts(ip, b, net)
    decreases |b|
  {
    if b == [] {
      assert a + b == a;
    } else {
      var b' := b[..|b| - 1];
      assert (a + b)[..|a + b| - 1] == a + b';
      OpenPortsAppend(ip, a, b', net);
    }
  }

  /** Every requested port that answers appears in the result. */
  lemma {:induction false} OpenPortsComplete(ip: string, ports: seq<int>, net: Network, k: nat)
    requires k < |ports| && ScanPort(ip, ports[k], net).Some?
    ensures ScanPort(ip, ports[k], net).value in OpenPorts(ip, ports, net)
    decreases |ports|
  {
    if k < |ports| - 1 {
      var earlier := ports[..|ports| - 1];
      assert earlier[k] == ports[k];
      OpenPortsComplete(ip, earlier, net, k);
    }
  }

  /** One more port adds its probe result, if any, at the end. */
  lemma OpenPortsStep(ip: string, ports: seq<int>, i: nat, net: Network)
    requires i < |ports|
    ensures OpenPorts(ip, ports[..i + 1], net) ==
            OpenPorts(ip, ports[..i], net) +
            (if ScanPort(ip, ports[i], net).Some? then [ScanPort(ip, ports[i], net).value] else [])
  {
    assert ports[..i + 1][..i] == ports[..i];
  }

  /** `start_scan`: probe each requested port in order and keep the ports
      that answered. */
  method StartScan(ip: string, ports: seq<int>, net: Network) returns (results: seq<PortResult>)
    ensures results == OpenPorts(ip, ports, net)
    ensures |results| <= |ports|
    ensures forall r :: r in results ==> r.port in ports && IsPortNumber(r.port)
  {
    results := [];
    var i := 0;
    while i < |ports|
      invariant 0 <= i <= |ports|
      invariant results == OpenPorts(ip, ports[..i], net)
    {
      OpenPortsStep(ip, ports, i, net);
      var probe := ScanPort(ip, ports[i], net);
      if probe.Some? {
        results := results + [probe.value];
      }
      i := i + 1;
    }
    assert ports[..|ports|] == ports;
  }
}
