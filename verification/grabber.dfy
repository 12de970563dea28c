/** The banner grabber (core/grabber.py): the transport chosen for a port,
    the HTTP probe that is sent, and how the received bytes become a
    banner. The socket, the TLS handshake and UTF-8 decoding are oracles. */
module Grabber {
  import opened Common
  import opened Text

  newtype byte = x: int | 0 <= x < 256

  /** The buffer size passed to `recv`. */
  const RecvLimit: nat := 1024

  /** The banner when the peer sent only whitespace or nothing. */
  const UnknownService := "Unknown Service"

  /** The banner when connect, send or receive raised. */
  const NoBanner := "No Banner / Timeout"

  /** Plain TCP, or TLS with hostname checking and certificate
      verification switched off (so self-signed hosts can be probed). */
  datatype Transport = Plain | TlsUnverified

  /** What the grabber asks of the network for one port: the transport,
      the address it connects to and the text it sends. */
  datatype Session = Session(transport: Transport, host: string, port: int, request: string)

  /** The network's answer to a session: an exception somewhere in
      connect, send or recv, or the bytes waiting to be read. */
  datatype Exchange = Failed | Received(pending: seq<byte>)

  /** Only port 443 is wrapped in TLS. */
  function TransportFor(port: int): (t: Transport)
    ensures t == TlsUnverified <==> port == 443
  {
    if port == 443 then TlsUnverified else Plain
  }

  /** The probe: an HTTP/1.1 HEAD request for "/" with a Host field. */
  function Probe(ip: string): string {
    "HEAD / HTTP/1.1\r\nHost: " + ip + "\r\n\r\n"
  }

  /** The session `get_banner(ip, port)` opens. */
  function SessionFor(ip: string, port: int): (s: Session)
    ensures s.host == ip && s.port == port
    ensures s.transport == TlsUnverified <==> port == 443
    ensures s.request == Probe(ip)
  {
    Session(TransportFor(port), ip, port, Probe(ip))
  }

  /** One `recv(1024)`: at most the first 1024 pending bytes, in order. */
  function Recv(pending: seq<byte>): (chunk: seq<byte>)
    ensures |chunk| <= RecvLimit && |chunk| <= |pending|
    ensures chunk == pending[..|chunk|]
    ensures |chunk| == |pending| || |chunk| == RecvLimit
  {
    if |pending| <= RecvLimit then pending else pending[..RecvLimit]
  }

  /** The received text stripped, reduced to its first line, or replaced by
      the sentinel when nothing but whitespace arrived. A non-empty result
      is the part of the stripped text before its first line feed. */
  function Cleanup(text: string): (banner: string)
    ensures Strip(text) == [] ==> banner == UnknownService
    ensures Strip(text) != [] ==>
              && banner != []
              && '\n' !in banner
              && |banner| <= |Strip(text)|
              && Strip(text)[..|banner|] == banner
              && (|banner| < |Strip(text)| ==> Strip(text)[|banner|] == '\n')
  {
    var stripped := Strip(text);
    if stripped != [] then
      var line := Split(stripped, '\n')[0];
      assert line != [] by {
        assert IsSpace('\n');
      }
      line
    else
      UnknownService
  }

  /** `get_banner(ip, port)`, given the network's answer to the session it
      opens and the decoder for the received bytes. */
  function GetBanner(ip: string, port: int, network: Session -> Exchange,
                     decode: seq<byte> -> string): (banner: string)
    ensures network(SessionFor(ip, port)).Failed? ==> banner == NoBanner
    ensures network(SessionFor(ip, port)).Received? ==>
              banner == Cleanup(decode(Recv(network(SessionFor(ip, port)).pending)))
  {
    match network(SessionFor(ip, port))
    case Failed => NoBanner
    case Received(pending) => Cleanup(decode(Recv(pending)))
  }

  /** A banner is one of the two sentinels or a non-empty single line. */
  lemma BannerIsOneLine(ip: string, port: int, network: Session -> Exchange,
                        decode: seq<byte> -> string)
    ensures var b := GetBanner(ip, port, network, decode);
            b == NoBanner || b == UnknownService || (b != [] && '\n' !in b)
  {
  }

  /** The line kept is cut at the line feed, so a CRLF-terminated status
      line keeps its carriage return. */
  lemma CarriageReturnKept()
    ensures Cleanup("HTTP/1.1 200 OK\r" + "\n" + "Server: nginx" + "\r\n") == "HTTP/1.1 200 OK\r"
  {
    var status := "HTTP/1.1 200 OK\r";
    var stripped := status + "\n" + "Server: nginx";
    StrippedResponse(status, stripped);
    SplitAtFirst(status, '\n', "Server: nginx");
  }

  lemma StrippedResponse(status: string, stripped: string)
    requires status == "HTTP/1.1 200 OK\r" && stripped == status + "\n" + "Server: nginx"
    ensures Strip(stripped + "\r\n") == stripped
  {
    var text := stripped + "\r\n";
    assert text[0] == status[0] == 'H';
    assert TrimStart(text, IsSpace) == text;
    assert stripped[|stripped| - 1] == 'x';
    TrimEndDropsTail(stripped, "\r\n", IsSpace);
  }

  /** Trimming the end removes exactly a droppable tail after a kept character. */
  lemma {:induction false} TrimEndDropsTail(s: string, tail: string, drop: char -> bool)
    requires s != [] && !drop(s[|s| - 1])
    requires forall k :: 0 <= k < |tail| ==> drop(tail[k])
    ensures TrimEnd(s + tail, drop) == s
    decreases |tail|
  {
    if tail != [] {
      var t := s + tail;
      assert t[..|t| - 1] == s + tail[..|tail| - 1];
      TrimEndDropsTail(s, tail[..|tail| - 1], drop);
    } else {
      assert s + tail == s;
    }
  }

  // ------------------------------------------------ reading the probe back

  /** One field line: name and value (section 5 of RFC 9112). */
  datatype Field = Field(name: string, value: string)

  /** A request head: request line and field lines (section 3 of RFC 9112). */
  datatype RequestHead = RequestHead(verb: string, target: string, version: string,
                                     fields: seq<Field>)

  /** Optional whitespace: space or horizontal tab (section 5.6.3 of RFC 9110). */
  predicate IsOws(c: char) {
    c == ' ' || c == '\t'
  }

  /** Text that can stand as a host in the probe: no line break, no whitespace. */
  predicate IsHostText(ip: string) {
    forall k :: 0 <= k < |ip| ==> ip[k] != '\r' && ip[k] != '\n' && !IsOws(ip[k])
  }

  predicate IsFieldName(name: string) {
    name != [] && forall k :: 0 <= k < |name| ==> !IsOws(name[k]) && name[k] != '\r'
  }

  /** `name ":" OWS value OWS`, or `None`. */
  function ParseField(line: string): Option<Field> {
    var name := Split(line, ':')[0];
    if |name| == |line| || !IsFieldName(name) then None
    else Some(Field(name, Trim(line[|name| + 1..], IsOws)))
  }

  /** A field line still carrying its carriage return. */
  function ParseFieldLine(line: string): Option<Field> {
    if EndsWith(line, "\r") then ParseField(line[..|line| - 1]) else None
  }

  /** Field lines, each still carrying its carriage return. */
  function ParseFields(lines: seq<string>): (r: Option<seq<Field>>)
    ensures r.Some? ==> |r.value| == |lines|
  {
    if lines == [] then Some([])
    else match ParseFieldLine(lines[0])
      case None => None
      case Some(f) =>
        match ParseFields(lines[1..])
        case None => None
        case Some(fs) => Some([f] + fs)
  }

  /** Reads a request head with no body: CRLF-terminated lines, a request
      line of three space-separated parts, field lines, an empty line. */
  function ParseRequestHead(msg: string): Option<RequestHead> {
    var lines := Split(msg, '\n');
    if |lines| < 3 || lines[|lines| - 1] != [] || lines[|lines| - 2] != "\r"
       || !EndsWith(lines[0], "\r") then None
    else
      var words := Split(lines[0][..|lines[0]| - 1], ' ');
      if |words| != 3 then None
      else match ParseFields(lines[1..|lines| - 2])
        case None => None
        case Some(fields) => Some(RequestHead(words[0], words[1], words[2], fields))
  }

  /** The probe reads back as a HEAD request for "/" in HTTP/1.1 whose only
      field is `Host`, carrying the address (sections 3 and 3.2 of RFC 9112). */
  lemma ProbeReadsBack(ip: string)
    requires IsHostText(ip)
    ensures ParseRequestHead(Probe(ip)) ==
            Some(RequestHead("HEAD", "/", "HTTP/1.1", [Field("Host", ip)]))
  {
    var requestLine := "HEAD / HTTP/1.1\r";
    var hostLine := "Host: " + ip + "\r";
    ProbeLines(ip, requestLine, hostLine);
    var lines := Split(Probe(ip), '\n');
    RequestLineWords(requestLine);
    assert lines[1..|lines| - 2] == [hostLine];
    HostFieldList(ip, hostLine);
  }

  /** The probe is three CRLF-terminated lines: request line, Host, empty. */
  lemma ProbeLines(ip: string, requestLine: string, hostLine: string)
    requires IsHostText(ip)
    requires requestLine == "HEAD / HTTP/1.1\r" && hostLine == "Host: " + ip + "\r"
    ensures Split(Probe(ip), '\n') == [requestLine, hostLine, "\r", ""]
  {
    var tail := "\r" + ['\n'] + "";
    var rest := hostLine + ['\n'] + tail;
    ProbeShape(ip, requestLine, hostLine, rest, tail);
    HostLineHasNoLineFeed(ip, hostLine);
    assert '\n' !in requestLine;
    SplitAtFirst("\r", '\n', "");
    SplitAtFirst(hostLine, '\n', tail);
    SplitAtFirst(requestLine, '\n', rest);
  }

  lemma ProbeShape(ip: string, requestLine: string, hostLine: string, rest: string, tail: string)
    requires requestLine == "HEAD / HTTP/1.1\r" && hostLine == "Host: " + ip + "\r"
    requires tail == "\r" + ['\n'] + "" && rest == hostLine + ['\n'] + tail
    ensures Probe(ip) == requestLine + ['\n'] + rest
  {
    assert "HEAD / HTTP/1.1\r\nHost: " == requestLine + ['\n'] + "Host: ";
    assert "\r\n\r\n" == "\r" + ['\n'] + tail;
  }

  lemma HostLineHasNoLineFeed(ip: string, hostLine: string)
    requires IsHostText(ip) && hostLine == "Host: " + ip + "\r"
    ensures '\n' !in hostLine
  {
    forall k | 0 <= k < |hostLine| ensures hostLine[k] != '\n' {
      if 6 <= k < 6 + |ip| { assert hostLine[k] == ip[k - 6]; }
    }
  }

  /** The request line is method, target and version. */
  lemma RequestLineWords(requestLine: string)
    requires requestLine == "HEAD / HTTP/1.1\r"
    ensures EndsWith(requestLine, "\r")
    ensures Split(requestLine[..|requestLine| - 1], ' ') == ["HEAD", "/", "HTTP/1.1"]
  {
    var words := "HEAD" + [' '] + "/" + [' '] + "HTTP/1.1";
    assert requestLine == words + "\r";
    assert requestLine[..|requestLine| - 1] == words;
    ThreeWords("HEAD", "/", "HTTP/1.1");
  }

  /** The Host field line reads back as the field Host with the address. */
  lemma HostFieldParses(ip: string, hostLine: string)
    requires IsHostText(ip) && hostLine == "Host: " + ip + "\r"
    ensures EndsWith(hostLine, "\r")
    ensures ParseField(hostLine[..|hostLine| - 1]) == Some(Field("Host", ip))
  {
    var fieldLine := hostLine[..|hostLine| - 1];
    assert fieldLine == "Host" + [':'] + (" " + ip);
    assert ':' !in "Host";
    SplitAtFirst("Host", ':', " " + ip);
    assert Split(fieldLine, ':')[0] == "Host";
    assert IsFieldName("Host");
    assert fieldLine[5..] == " " + ip;
    OwsTrimmedAround(ip);
  }

  /** The field lines of the probe are the single Host field. */
  lemma HostFieldList(ip: string, hostLine: string)
    requires IsHostText(ip) && hostLine == "Host: " + ip + "\r"
    ensures ParseFields([hostLine]) == Some([Field("Host", ip)])
  {
    HostFieldParses(ip, hostLine);
    assert hostLine[|hostLine| - 1..] == "\r";
    SingleFieldLine(hostLine);
  }

  lemma SingleFieldLine(line: string)
    requires ParseFieldLine(line).Some?
    ensures ParseFields([line]) == Some([ParseFieldLine(line).value])
  {
    var lines := [line];
    assert lines[0] == line && lines[1..] == [];
    assert ParseFields(lines[1..]) == Some([]);
    var f := ParseFieldLine(line).value;
    assert [f] + [] == [f];
  }

  /** Three space-free words joined by single spaces split back into them. */
  lemma ThreeWords(a: string, b: string, c: string)
    requires ' ' !in a && ' ' !in b && ' ' !in c
    ensures Split(a + [' '] + b + [' '] + c, ' ') == [a, b, c]
  {
    assert a + [' '] + b + [' '] + c == a + [' '] + (b + [' '] + c);
    SplitAtFirst(a, ' ', b + [' '] + c);
    SplitAtFirst(b, ' ', c);
    SplitWithoutSeparator(c, ' ');
  }

  /** The value after "Host:" is the address once the space is trimmed. */
  lemma OwsTrimmedAround(ip: string)
    requires IsHostText(ip)
    ensures Trim(" " + ip, IsOws) == ip
  {
    var padded := " " + ip;
    assert padded[1..] == ip;
    assert padded != [] && IsOws(padded[0]);
    assert TrimStart(padded, IsOws) == TrimStart(ip, IsOws);
    if ip != [] {
      assert !IsOws(ip[0]) && !IsOws(ip[|ip| - 1]);
    }
    assert TrimStart(ip, IsOws) == ip;
    assert TrimEnd(ip, IsOws) == ip;
  }
}
