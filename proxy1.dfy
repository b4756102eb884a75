/**
 * `doit` of proxy1.c, the earlier draft: the same transaction as proxy.c, except that the
 * first read is not checked, the header rewriter forwards the client's other header lines
 * (all but Connection, Proxy-Connection and User-Agent), the response bytes are not
 * counted and nothing is logged. `parse_uri` and `connect_endServer` are the same code as
 * in proxy.c and are shared with that model.
 */
module Proxy1 {
  import opened Wrappers
  import opened CText
  import opened Rio
  import opened Request
  import opened UriParser
  import opened Headers
  import opened Proxy

  /**
   * The passthrough test of proxy1.c: a line is appended when it starts with none of
   * Connection, Proxy-Connection and User-Agent.
   */
  predicate Keep(line: string) {
    !StartsWithIgnoreCase(line, ConnectionKey) && !StartsWithIgnoreCase(line, ProxyConnectionKey) &&
    !StartsWithIgnoreCase(line, UserAgentKey)
  }

  /**
   * The passthrough block is exactly the client's header lines, in their order, that start
   * neither with Host nor with one of the three keys the proxy sets itself.
   */
  lemma PassthroughExactly(block: seq<string>, x: string)
    ensures x in Kept(block, Keep) <==>
      exists i :: 0 <= i < |block| && x == CString(block[i]) && !IsHostLine(block[i]) && Keep(CString(block[i]))
    ensures forall y :: y in Kept(block, Keep) ==> !StartsWithIgnoreCase(y, HostKey) && Keep(y)
  {
    KeptMembers(block, Keep, x);
    KeptPass(block, Keep);
  }

  /** The header that proxy1.c sends has exactly one Host, Connection, Proxy-Connection and User-Agent field. */
  lemma OneOfEachField(path: string, block: seq<string>, hostname: string)
    ensures var fields := HeaderFields(path, HostHeader(block, hostname), Kept(block, Keep));
      CountStarting(fields, HostKey) == 1 && CountStarting(fields, ConnectionKey) == 1 &&
      CountStarting(fields, ProxyConnectionKey) == 1 && CountStarting(fields, UserAgentKey) == 1
  {
    ExactlyOneOfEach(path, block, hostname, Keep);
  }

  /** The draft's output order is the one proxy.c writes, with the passthrough block in it. */
  lemma HeaderLayout(lines: seq<string>, hostname: Option<string>, path: Option<string>)
    ensures var block := lines[..BlockLength(lines)];
      BuiltHeader(lines, hostname, path, Keep) ==
        Concat(HeaderFields(path.GetOr(""), HostHeader(block, hostname.GetOr("")), Kept(block, Keep)))
  {
    var block := lines[..BlockLength(lines)];
    HttpHeaderFields(path.GetOr(""), HostHeader(block, hostname.GetOr("")), Kept(block, Keep));
  }

  /**
   * What the draft's `doit` does. Its first read is not checked: when it returns 0 the
   * line buffer still reads as empty, which yields no method, so the request is dropped as
   * a non-GET one.
   */
  function Transaction1(clientIn: seq<string>, connected: bool, serverIn: seq<string>): Exchange {
    var line := if clientIn == [] then "" else clientIn[0];
    var first := if clientIn == [] then 0 else 1;
    var (verb, uri) := RequestLine(line);
    if !IsGet(verb) then NoExchange.(clientReads := first)
    else
      var t := Parse(uri);
      var ex := Forwarding1(clientIn[1..], t.hostname, t.path, t.port, connected, serverIn);
      ex.(clientReads := 1 + ex.clientReads)
  }

  /** The part of the draft's `doit` after `parse_uri`. */
  function Forwarding1(rest: seq<string>, hostname: Option<string>, path: Option<string>, port: int,
                       connected: bool, serverIn: seq<string>): Exchange {
    var header := BuiltHeader(rest, hostname, path, Keep);
    var endpoint := ConnectEndServer(hostname.GetOr(""), port);
    if !connected then NoExchange.(clientReads := Consumed(rest), connectTo := Some(endpoint))
    else Exchange(Consumed(rest), Some(endpoint), [header], |serverIn|, serverIn, [])
  }

  /** `doit(connfd)` of proxy1.c. */
  method Doit1(client: Connection, server: Connection, connected: bool) returns (connectTo: Option<Endpoint>)
    requires client.Valid() && server.Valid() && client != server
    modifies client, server
    ensures client.Valid() && server.Valid()
    ensures var ex := Transaction1(old(client.Remaining()), connected, old(server.Remaining()));
      connectTo == ex.connectTo &&
      client.pos == old(client.pos) + ex.clientReads && server.pos == old(server.pos) + ex.serverReads &&
      client.outgoing == old(client.outgoing) + ex.toClient &&
      server.outgoing == old(server.outgoing) + ex.toServer
  {
    ghost var clientIn := client.Remaining();
    var buf := client.ReadLine();
    var (verb, uriText) := RequestLine(buf);
    if !IsGet(verb) {
      return None;
    }
    assert clientIn != [] by {
      if clientIn == [] {
        BlankLineIsNotGet(buf);
      }
    }
    assert buf == clientIn[0] && client.Remaining() == clientIn[1..];
    var uri := new char[|uriText|](i requires 0 <= i < |uriText| => uriText[i]);
    assert uri[..] == uriText;
    var hostname, path, port := ParseUri(uri);
    ParseTokens(uriText);
    connectTo := Forward1(client, server, hostname, path, port, connected);
  }

  /** The draft's `doit` from `build_http_header` on, with its uncounted relay loop. */
  method Forward1(client: Connection, server: Connection, hostname: Option<string>, path: Option<string>, port: int,
                  connected: bool) returns (connectTo: Option<Endpoint>)
    requires client.Valid() && server.Valid() && client != server
    requires IsToken(hostname.GetOr("")) && IsToken(path.GetOr(""))
    modifies client`pos, client`outgoing, server
    ensures client.Valid() && server.Valid()
    ensures var ex := Forwarding1(old(client.Remaining()), hostname, path, port, connected, old(server.Remaining()));
      connectTo == ex.connectTo &&
      client.pos == old(client.pos) + ex.clientReads && server.pos == old(server.pos) + ex.serverReads &&
      client.outgoing == old(client.outgoing) + ex.toClient &&
      server.outgoing == old(server.outgoing) + ex.toServer
  {
    ghost var rest := client.Remaining();
    var httpHeader := BuildHttpHeader(hostname, path, client, Keep);
    connectTo := Some(ConnectEndServer(hostname.GetOr(""), port));
    if !connected {
      return;
    }
    BuiltHeaderNulFree(rest, hostname, path, Keep);
    server.Write(CString(httpHeader));
    Relay1(server, client);
  }

  /** The draft's relay loop: server chunks go to the client unchanged until a read returns 0. */
  method Relay1(server: Connection, client: Connection)
    requires server.Valid() && server != client
    modifies server`pos, client`outgoing
    ensures server.Valid() && server.pos == |server.incoming|
    ensures client.outgoing == old(client.outgoing) + old(server.Remaining())
  {
    ghost var chunks := server.Remaining();
    ghost var sent: seq<string> := [];
    while true
      invariant server.Valid()
      invariant chunks == sent + server.Remaining()
      invariant client.outgoing == old(client.outgoing) + sent
      decreases |server.incoming| - server.pos
    {
      ghost var before := server.Remaining();
      var n := server.ReadLine();
      if n == [] {
        break;
      }
      RemainingStep(before, n, server.Remaining());
      client.Write(n);
      sent := sent + [n];
    }
    assert sent + [] == sent;
  }

  /** A read that returns 0 first drops the connection like a non-GET request. */
  lemma NoRequestNoAction1(connected: bool, serverIn: seq<string>)
    ensures Transaction1([], connected, serverIn) == NoExchange
  {
    BlankLineIsNotGet("");
  }

  /** A method other than GET: nothing is parsed, connected or written. */
  lemma NonGetAborts1(clientIn: seq<string>, connected: bool, serverIn: seq<string>)
    requires clientIn != [] && !IsGet(RequestLine(clientIn[0]).0)
    ensures Transaction1(clientIn, connected, serverIn) == NoExchange.(clientReads := 1)
  {
  }

  /**
   * Once connected, the server gets the rewritten header, the client gets the server's
   * response chunk for chunk until a read returns 0, and nothing is logged.
   */
  lemma ConnectedRelaysVerbatim1(clientIn: seq<string>, serverIn: seq<string>)
    requires clientIn != [] && IsGet(RequestLine(clientIn[0]).0)
    ensures var ex := Transaction1(clientIn, true, serverIn);
      var t := Parse(RequestLine(clientIn[0]).1);
      ex.toClient == serverIn && ex.serverReads == |serverIn| && ex.logged == [] &&
      ex.toServer == [BuiltHeader(clientIn[1..], t.hostname, t.path, Keep)]
  {
  }

  /** A failed connect writes nothing to either side. */
  lemma ConnectFailureAborts1(clientIn: seq<string>, serverIn: seq<string>)
    requires clientIn != [] && IsGet(RequestLine(clientIn[0]).0)
    ensures var ex := Transaction1(clientIn, false, serverIn);
      ex.connectTo.Some? && ex.toServer == [] && ex.toClient == [] && ex.serverReads == 0 &&
      ex.clientReads == 1 + Consumed(clientIn[1..])
  {
  }
}
