/**
 * `doit` of proxy.c, the per-connection transaction: read the request line, accept only GET,
 * split the target, rewrite the headers, connect to the origin server, send it the header,
 * relay its response to the client while counting the bytes, and log the request when any
 * byte came back. Also `connect_endServer`, reduced to the endpoint it asks for.
 */
module Proxy {
  import opened Wrappers
  import opened CText
  import opened Rio
  import opened Request
  import opened UriParser
  import opened Headers
  import opened Log

  /** The host name and the service string `connect_endServer` hands to `Open_clientfd`. */
  datatype Endpoint = Endpoint(host: string, service: string)

  /** `connect_endServer(hostname, port, ...)`: the port is printed with `sprintf("%d")`. */
  function ConnectEndServer(hostname: string, port: int): Endpoint {
    Endpoint(hostname, IntToDecimal(port))
  }

  /** The service string names the same port again when read back as a number. */
  lemma ServiceIsPort(hostname: string, port: int)
    ensures ConnectEndServer(hostname, port).host == hostname
    ensures ScanInt(ConnectEndServer(hostname, port).service) == Some((port, ""))
  {
    ScanIntOfDecimal(port, "");
    assert IntToDecimal(port) + "" == IntToDecimal(port);
  }

  /**
   * The passthrough test of proxy.c as written: a line is appended only when it starts
   * with Connection and with Proxy-Connection and with User-Agent at once.
   */
  predicate KeepAsWritten(line: string) {
    StartsWithIgnoreCase(line, ConnectionKey) && StartsWithIgnoreCase(line, ProxyConnectionKey) &&
    StartsWithIgnoreCase(line, UserAgentKey)
  }

  /** No line starts with both "Connection" and "Proxy-Connection", so no line passes. */
  lemma KeepAsWrittenNever(line: string)
    ensures !KeepAsWritten(line)
  {
    if StartsWithIgnoreCase(line, ConnectionKey) {
      assert Lower(line[0]) == 'c';
      FirstCharMismatch(line, ProxyConnectionKey);
    }
  }

  /** So proxy.c forwards none of the client's own header lines but the Host line. */
  lemma {:induction false} PassthroughAlwaysEmpty(lines: seq<string>, hostname: Option<string>, path: Option<string>)
    ensures var block := lines[..BlockLength(lines)];
      BuiltHeader(lines, hostname, path, KeepAsWritten) ==
        HttpHeader(path.GetOr(""), HostHeader(block, hostname.GetOr("")), "")
  {
    forall x ensures !KeepAsWritten(x) {
      KeepAsWrittenNever(x);
    }
    KeptNothing(lines[..BlockLength(lines)], KeepAsWritten);
  }

  /**
   * Everything one call of `doit` does to the outside world: the client and server reads it
   * makes, the endpoint it asks to connect to (if it gets that far), the writes to the
   * server and to the client, and the lines it adds to the access log.
   */
  datatype Exchange = Exchange(clientReads: nat, connectTo: Option<Endpoint>, toServer: seq<string>,
                               serverReads: nat, toClient: seq<string>, logged: seq<string>)

  /** No request line: `doit` returns at once. */
  const NoExchange := Exchange(0, None, [], 0, [], [])

  /**
   * What `doit` does, given the reads the client and the server connection will deliver,
   * whether the connection to the origin server succeeds, the time string the log would
   * get, and whether the log file opens.
   */
  function Transaction(clientIn: seq<string>, connected: bool, serverIn: seq<string>, now: string, logOpens: bool): Exchange {
    if clientIn == [] then NoExchange
    else
      var (verb, uri) := RequestLine(clientIn[0]);
      if !IsGet(verb) then NoExchange.(clientReads := 1)
      else
        var t := Parse(uri);
        var ex := Forwarding(clientIn[1..], t.hostname, t.path, t.port, CString(t.uri), connected, serverIn, now, logOpens);
        ex.(clientReads := 1 + ex.clientReads)
  }

  /**
   * The part of `doit` after `parse_uri`, given what it stored and the target as it left
   * it: the header is built from the client's remaining reads, the connect is attempted,
   * and on success the header is sent, the response relayed and the request logged if any
   * byte came back.
   */
  function Forwarding(rest: seq<string>, hostname: Option<string>, path: Option<string>, port: int, url: string,
                      connected: bool, serverIn: seq<string>, now: string, logOpens: bool): Exchange {
    var header := BuiltHeader(rest, hostname, path, KeepAsWritten);
    var endpoint := ConnectEndServer(hostname.GetOr(""), port);
    if !connected then NoExchange.(clientReads := Consumed(rest), connectTo := Some(endpoint))
    else
      var total := TotalLength(serverIn);
      var logged := if total > 0 && logOpens then [LogEntry(now, hostname.GetOr(""), url, total)] else [];
      Exchange(Consumed(rest), Some(endpoint), [header], |serverIn|, serverIn, logged)
  }

  /**
   * The relay loop of `doit`: every chunk the server delivers is written to the client
   * unchanged until a read returns 0, and `total_size` counts the bytes.
   */
  method Relay(server: Connection, client: Connection) returns (totalSize: nat)
    requires server.Valid() && server != client
    modifies server`pos, client`outgoing
    ensures server.Valid() && server.pos == |server.incoming|
    ensures client.outgoing == old(client.outgoing) + old(server.Remaining())
    ensures totalSize == TotalLength(old(server.Remaining()))
  {
    ghost var chunks := server.Remaining();
    ghost var sent: seq<string> := [];
    totalSize := 0;
    while true
      invariant server.Valid()
      invariant chunks == sent + server.Remaining()
      invariant client.outgoing == old(client.outgoing) + sent
      invariant totalSize == TotalLength(sent)
      decreases |server.incoming| - server.pos
    {
      ghost var before := server.Remaining();
      var n := server.ReadLine();
      if n == [] {
        break;
      }
      RemainingStep(before, n, server.Remaining());
      TotalLengthSnoc(sent, n);
      client.Write(n);
      sent := sent + [n];
      totalSize := totalSize + |n|;
    }
    assert sent + [] == sent;
  }

  lemma RemainingStep<T>(before: seq<T>, x: T, after: seq<T>)
    requires before != [] && x == before[0] && after == before[1..]
    ensures before == [x] + after
  {
  }

  /** `doit(connfd)`: one transaction, against the connections `client` and `server`. */
  method Doit(client: Connection, server: Connection, connected: bool, now: string, logOpens: bool, log: AccessLog)
    returns (connectTo: Option<Endpoint>)
    requires client.Valid() && server.Valid() && client != server
    modifies client, server, log
    ensures client.Valid() && server.Valid()
    ensures var ex := Transaction(old(client.Remaining()), connected, old(server.Remaining()), now, logOpens);
      connectTo == ex.connectTo &&
      client.pos == old(client.pos) + ex.clientReads && server.pos == old(server.pos) + ex.serverReads &&
      client.outgoing == old(client.outgoing) + ex.toClient &&
      server.outgoing == old(server.outgoing) + ex.toServer &&
      log.entries == old(log.entries) + ex.logged
  {
    ghost var clientIn := client.Remaining();
    var buf := client.ReadLine();
    if buf == [] {
      return None;
    }
    var (verb, uriText) := RequestLine(buf);
    if !IsGet(verb) {
      return None;
    }
    assert buf == clientIn[0] && client.Remaining() == clientIn[1..];
    var uri := new char[|uriText|](i requires 0 <= i < |uriText| => uriText[i]);
    assert uri[..] == uriText;
    var hostname, path, port := ParseUri(uri);
    ParseTokens(uriText);
    connectTo := Forward(client, server, hostname, path, port, CString(uri[..]), connected, now, logOpens, log);
  }

  /** `doit` from `build_http_header` on. */
  method Forward(client: Connection, server: Connection, hostname: Option<string>, path: Option<string>, port: int,
                 url: string, connected: bool, now: string, logOpens: bool, log: AccessLog)
    returns (connectTo: Option<Endpoint>)
    requires client.Valid() && server.Valid() && client != server
    requires IsToken(hostname.GetOr("")) && IsToken(path.GetOr(""))
    modifies client`pos, client`outgoing, server, log
    ensures client.Valid() && server.Valid()
    ensures var ex := Forwarding(old(client.Remaining()), hostname, path, port, url, connected, old(server.Remaining()), now, logOpens);
      connectTo == ex.connectTo &&
      client.pos == old(client.pos) + ex.clientReads && server.pos == old(server.pos) + ex.serverReads &&
      client.outgoing == old(client.outgoing) + ex.toClient &&
      server.outgoing == old(server.outgoing) + ex.toServer &&
      log.entries == old(log.entries) + ex.logged
  {
    ghost var rest := client.Remaining();
    var httpHeader := BuildHttpHeader(hostname, path, client, KeepAsWritten);
    connectTo := Some(ConnectEndServer(hostname.GetOr(""), port));
    if !connected {
      return;
    }
    BuiltHeaderNulFree(rest, hostname, path, KeepAsWritten);
    server.Write(CString(httpHeader));
    var totalSize := Relay(server, client);
    if totalSize > 0 {
      log.FormatLogEntry(now, hostname.GetOr(""), url, totalSize, logOpens);
    }
  }

  /** The first read returns 0 (end of file or an error): nothing happens. */
  lemma NoRequestNoAction(connected: bool, serverIn: seq<string>, now: string, logOpens: bool)
    ensures Transaction([], connected, serverIn, now, logOpens) == NoExchange
  {
  }

  /**
   * A method other than GET, in any case: the request line is the only read and nothing
   * is parsed, connected, written or logged.
   */
  lemma NonGetAborts(clientIn: seq<string>, connected: bool, serverIn: seq<string>, now: string, logOpens: bool)
    requires clientIn != [] && !IsGet(RequestLine(clientIn[0]).0)
    ensures Transaction(clientIn, connected, serverIn, now, logOpens) == NoExchange.(clientReads := 1)
  {
  }

  /**
   * A failed connect aborts after the headers are read: nothing is written to either side
   * and nothing is logged.
   */
  lemma ConnectFailureAborts(clientIn: seq<string>, serverIn: seq<string>, now: string, logOpens: bool)
    requires clientIn != [] && IsGet(RequestLine(clientIn[0]).0)
    ensures var ex := Transaction(clientIn, false, serverIn, now, logOpens);
      ex.connectTo.Some? && ex.toServer == [] && ex.toClient == [] && ex.serverReads == 0 && ex.logged == [] &&
      ex.clientReads == 1 + Consumed(clientIn[1..])
  {
  }

  /**
   * Once connected, the server gets the rewritten header as one write, the client gets the
   * server's response chunk for chunk, and the header holds none of the client's header
   * lines but its last Host line.
   */
  lemma {:induction false} ConnectedRelaysVerbatim(clientIn: seq<string>, serverIn: seq<string>, now: string, logOpens: bool)
    requires clientIn != [] && IsGet(RequestLine(clientIn[0]).0)
    ensures var ex := Transaction(clientIn, true, serverIn, now, logOpens);
      var t := Parse(RequestLine(clientIn[0]).1);
      var lines := clientIn[1..];
      ex.toClient == serverIn && ex.serverReads == |serverIn| &&
      ex.toServer == [HttpHeader(t.path.GetOr(""), HostHeader(lines[..BlockLength(lines)], t.hostname.GetOr("")), "")]
  {
    var t := Parse(RequestLine(clientIn[0]).1);
    PassthroughAlwaysEmpty(clientIn[1..], t.hostname, t.path);
  }

  /**
   * The request is logged exactly when the server sent at least one byte (and the log
   * file opens); the entry names the parsed host, the target as `parse_uri` left it, and
   * the byte count.
   */
  lemma {:induction false} LoggedIffBytes(clientIn: seq<string>, serverIn: seq<string>, now: string, logOpens: bool)
    requires forall i :: 0 <= i < |serverIn| ==> serverIn[i] != []
    requires clientIn != [] && IsGet(RequestLine(clientIn[0]).0)
    ensures var ex := Transaction(clientIn, true, serverIn, now, logOpens);
      var t := Parse(RequestLine(clientIn[0]).1);
      (ex.logged != [] <==> serverIn != [] && logOpens) &&
      (ex.logged != [] ==> ex.logged == [LogEntry(now, t.hostname.GetOr(""), CString(t.uri), TotalLength(serverIn))])
  {
    TotalLengthPositive(serverIn);
  }

  /**
   * A client request `GET scheme://host:port/path ...` makes `doit` connect to the host at
   * that port and send a request line for the path, and the log names the target cut at
   * the ':' before the port.
   */
  lemma {:induction false} AbsoluteRequest(scheme: string, host: string, port: nat, path: string, rest: string,
                                           headers: seq<string>, serverIn: seq<string>, now: string)
    requires IsToken(scheme) && IsToken(host) && IsToken(path)
    requires '/' !in scheme && ':' !in host && '/' !in host && host != []
    requires path != [] && path[0] == '/'
    requires '\0' !in rest && (rest == [] || IsSpace(rest[0]))
    requires forall i :: 0 <= i < |serverIn| ==> serverIn[i] != []
    ensures var uri := scheme + "//" + host + ":" + IntToDecimal(port) + path;
      var ex := Transaction(["GET " + uri + rest] + headers, true, serverIn, now, true);
      ex.connectTo == Some(Endpoint(host, IntToDecimal(port))) &&
      |ex.toServer| == 1 && RequestLine(ex.toServer[0]) == ("GET", path) &&
      (serverIn != [] ==> ex.logged == [LogEntry(now, host, scheme + "//" + host, TotalLength(serverIn))])
  {
    var uri := scheme + "//" + host + ":" + IntToDecimal(port) + path;
    var line := "GET " + uri + rest;
    assert line == "GET" + " " + uri + rest;
    assert IsToken(uri) by {
      DecimalIsToken(port);
      AbsoluteFormTokens(scheme, host, IntToDecimal(port), path);
    }
    RequestLineOfWords("GET", uri, rest);
    assert (["GET " + uri + rest] + headers)[0] == line;
    AbsoluteFormWithPort(scheme, host, port, path);
    assert Parse(uri).hostname == Some(host) && Parse(uri).path == Some(path);
    var clientIn := ["GET " + uri + rest] + headers;
    var lines := clientIn[1..];
    var block := lines[..BlockLength(lines)];
    ConnectedRelaysVerbatim(clientIn, serverIn, now, true);
    LastHostNulFree(block);
    HostHdrNulFree(host);
    RequestLineOfHeader(path, HostHeader(block, host), "");
    LoggedIffBytes(clientIn, serverIn, now, true);
  }

  /** An absolute-form target built from words is itself a word. */
  lemma AbsoluteFormTokens(scheme: string, host: string, digits: string, path: string)
    requires IsToken(scheme) && IsToken(host) && IsToken(digits) && IsToken(path)
    ensures IsToken(scheme + "//" + host + ":" + digits + path)
  {
    TokensConcat(scheme, "//");
    TokensConcat(scheme + "//", host);
    TokensConcat(scheme + "//" + host, ":");
    TokensConcat(scheme + "//" + host + ":", digits);
    TokensConcat(scheme + "//" + host + ":" + digits, path);
  }

  /** A number printed with `%d` is a word. */
  lemma DecimalIsToken(n: nat)
    ensures IsToken(IntToDecimal(n))
  {
    var ds := IntToDecimal(n);
    forall i | 0 <= i < |ds| ensures !IsSpace(ds[i]) && ds[i] != '\0' {
      assert IsDigit(ds[i]);
    }
  }
}
