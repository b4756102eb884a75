/**
 * What `build_http_header` builds, in proxy.c and proxy1.c alike: it reads client header
 * lines up to the first empty line "\r\n" or end of input, keeps the last Host line, passes
 * some of the other lines through, and assembles an HTTP/1.0 request (section 5 of RFC 1945)
 * in a fixed order. The two files differ only in which lines they pass through, so the
 * passthrough test is a parameter here.
 */
module Headers {
  import opened Wrappers
  import opened CText
  import opened Request
  import opened Rio

  /** The fixed User-Agent field, written in pieces only to keep it readable. */
  const UserAgentHdr: string := "User-Agent: Mozilla/5.0 " + "(X11; Linux x86_64; rv:10.0.3) " + "Gecko/20120305 " + "Firefox/10.0.3\r\n"
  const ConnHdr: string := "Connection: close\r\n"
  const ProxHdr: string := "Proxy-Connection: close\r\n"
  const EndOfHdr: string := "\r\n"

  const ConnectionKey: string := "Connection"
  const UserAgentKey: string := "User-Agent"
  const ProxyConnectionKey: string := "Proxy-Connection"
  const HostKey: string := "Host"

  /** `sprintf(request_hdr, "GET %s HTTP/1.0\r\n", path)`. */
  function RequestHdr(path: string): string {
    "GET " + path + " HTTP/1.0\r\n"
  }

  /** `sprintf(host_hdr, "Host: %s\r\n", hostname)`. */
  function HostHdrFor(hostname: string): string {
    "Host: " + hostname + "\r\n"
  }

  /** `strcmp(buf, "\r\n") == 0` on the bytes of one read. */
  predicate IsEnd(line: string) {
    CString(line) == EndOfHdr
  }

  /** `strncasecmp(buf, "Host", strlen("Host")) == 0` on the bytes of one read. */
  predicate IsHostLine(line: string) {
    StartsWithIgnoreCase(CString(line), HostKey)
  }

  /** How many reads make up the header block: those before the first "\r\n" line. */
  function BlockLength(lines: seq<string>): (n: nat)
    ensures n <= |lines|
    ensures forall i :: 0 <= i < n ==> !IsEnd(lines[i])
    ensures n < |lines| ==> IsEnd(lines[n])
  {
    if lines == [] || IsEnd(lines[0]) then 0 else 1 + BlockLength(lines[1..])
  }

  /** How many reads the loop makes that return data: the block, and the "\r\n" line if one came. */
  function Consumed(lines: seq<string>): nat {
    if BlockLength(lines) < |lines| then BlockLength(lines) + 1 else |lines|
  }

  /** What `strcpy` leaves in `host_hdr`: the last Host line of the block, or "" for none. */
  function LastHost(block: seq<string>): string {
    if block == [] then ""
    else if IsHostLine(block[|block| - 1]) then CString(block[|block| - 1])
    else LastHost(block[..|block| - 1])
  }

  /** The lines `strcat` appends to `other_hdr`: those that are not Host lines and pass `keep`. */
  function Kept(block: seq<string>, keep: string -> bool): seq<string> {
    if block == [] then []
    else
      var line := block[|block| - 1];
      Kept(block[..|block| - 1], keep) + (if !IsHostLine(line) && keep(CString(line)) then [CString(line)] else [])
  }

  /** The contents of `other_hdr` after the loop. */
  function Passthrough(block: seq<string>, keep: string -> bool): string {
    Concat(Kept(block, keep))
  }

  /** `host_hdr` after the `strlen(host_hdr) == 0` test. */
  function HostHeader(block: seq<string>, hostname: string): string {
    var h := LastHost(block);
    if |h| == 0 then HostHdrFor(hostname) else h
  }

  /** The `sprintf(http_header, "%s%s%s%s%s%s%s", ...)` that closes `build_http_header`. */
  function HttpHeader(path: string, hostHdr: string, otherHdr: string): string {
    RequestHdr(path) + hostHdr + ConnHdr + ProxHdr + UserAgentHdr + otherHdr + EndOfHdr
  }

  /** The same header as the sequence of fields it is written from, passthrough lines one by one. */
  function HeaderFields(path: string, hostHdr: string, kept: seq<string>): seq<string> {
    [RequestHdr(path), hostHdr, ConnHdr, ProxHdr, UserAgentHdr] + kept + [EndOfHdr]
  }

  /**
   * The header `build_http_header` builds from the client's remaining reads `lines`, the
   * parsed hostname and path (an unset buffer reads as "") and the passthrough test `keep`.
   */
  function BuiltHeader(lines: seq<string>, hostname: Option<string>, path: Option<string>, keep: string -> bool): string {
    var block := lines[..BlockLength(lines)];
    HttpHeader(path.GetOr(""), HostHeader(block, hostname.GetOr("")), Passthrough(block, keep))
  }

  /**
   * The loop of `build_http_header`: reads client lines until a read returns 0 or gives
   * "\r\n", keeps the last Host line aside, appends every other line `keep` accepts, and
   * then assembles the header. `hostname` and `path` are what `parse_uri` stored.
   */
  method BuildHttpHeader(hostname: Option<string>, path: Option<string>, client: Connection, keep: string -> bool)
    returns (httpHeader: string)
    requires client.Valid()
    modifies client`pos
    ensures client.Valid()
    ensures client.pos == old(client.pos) + Consumed(old(client.Remaining()))
    ensures httpHeader == BuiltHeader(old(client.Remaining()), hostname, path, keep)
  {
    ghost var lines := client.Remaining();
    ghost var start := client.pos;
    ghost var k := 0;
    var requestHdr := RequestHdr(path.GetOr(""));
    var hostHdr, otherHdr := "", "";
    while true
      invariant client.Valid() && client.incoming[start..] == lines
      invariant k <= BlockLength(lines) && client.pos == start + k
      invariant hostHdr == LastHost(lines[..k])
      invariant otherHdr == Passthrough(lines[..k], keep)
      decreases |client.incoming| - client.pos
    {
      var buf := client.ReadLine();
      if buf == [] {
        break;
      }
      assert buf == lines[k];
      if CString(buf) == EndOfHdr {
        break;
      }
      BlockStep(lines, k, keep);
      if StartsWithIgnoreCase(CString(buf), HostKey) {
        hostHdr := CString(buf);
        k := k + 1;
        continue;
      }
      if keep(CString(buf)) {
        otherHdr := otherHdr + CString(buf);
      }
      k := k + 1;
    }
    assert k == BlockLength(lines);
    if |hostHdr| == 0 {
      hostHdr := HostHdrFor(hostname.GetOr(""));
    }
    assert hostHdr == HostHeader(lines[..k], hostname.GetOr(""));
    httpHeader := requestHdr + hostHdr + ConnHdr + ProxHdr + UserAgentHdr + otherHdr + EndOfHdr;
  }

  /** One more line of the block: how `host_hdr` and `other_hdr` change with it. */
  lemma {:induction false} BlockStep(lines: seq<string>, k: nat, keep: string -> bool)
    requires k < |lines| && k <= BlockLength(lines) && !IsEnd(lines[k])
    ensures k + 1 <= BlockLength(lines)
    ensures LastHost(lines[..k + 1]) == if IsHostLine(lines[k]) then CString(lines[k]) else LastHost(lines[..k])
    ensures Passthrough(lines[..k + 1], keep) == Passthrough(lines[..k], keep) +
      (if !IsHostLine(lines[k]) && keep(CString(lines[k])) then CString(lines[k]) else "")
  {
    assert lines[..k + 1][..k] == lines[..k];
    var kept := Kept(lines[..k], keep);
    if !IsHostLine(lines[k]) && keep(CString(lines[k])) {
      ConcatSnoc(kept, CString(lines[k]));
    } else {
      assert kept + [] == kept;
    }
  }

  /** The fields laid end to end are the header. */
  lemma HttpHeaderFields(path: string, hostHdr: string, kept: seq<string>)
    ensures HttpHeader(path, hostHdr, Concat(kept)) == Concat(HeaderFields(path, hostHdr, kept))
  {
    ConcatFields(RequestHdr(path), hostHdr, ConnHdr, ProxHdr, UserAgentHdr, kept, EndOfHdr);
  }

  lemma ConcatFields(a: string, b: string, c: string, d: string, e: string, kept: seq<string>, z: string)
    ensures Concat([a, b, c, d, e] + kept + [z]) == a + b + c + d + e + Concat(kept) + z
  {
    var f5 := [a, b, c, d, e];
    assert Concat(f5) == a + b + c + d + e by {
      var f1 := [a];
      var f2 := f1 + [b];
      var f3 := f2 + [c];
      var f4 := f3 + [d];
      assert f1 == [] + [a];
      ConcatSnoc([], a);
      ConcatSnoc(f1, b);
      ConcatSnoc(f2, c);
      ConcatSnoc(f3, d);
      ConcatSnoc(f4, e);
      assert f5 == f4 + [e];
    }
    ConcatAppend(f5, kept);
    ConcatSnoc(f5 + kept, z);
  }

  /** Reading stops at the first "\r\n" line: whatever comes after it never counts. */
  lemma {:induction false} BlockIgnoresLaterReads(lines: seq<string>, more: seq<string>)
    requires BlockLength(lines) < |lines|
    ensures BlockLength(lines + more) == BlockLength(lines)
    ensures Consumed(lines + more) == Consumed(lines)
    ensures (lines + more)[..BlockLength(lines)] == lines[..BlockLength(lines)]
  {
    if !IsEnd(lines[0]) {
      assert (lines + more)[1..] == lines[1..] + more;
      BlockIgnoresLaterReads(lines[1..], more);
    }
  }

  /** The header depends only on the reads before the "\r\n" line. */
  lemma BuiltHeaderIgnoresLaterReads(lines: seq<string>, more: seq<string>,
                                     hostname: Option<string>, path: Option<string>, keep: string -> bool)
    requires BlockLength(lines) < |lines|
    ensures BuiltHeader(lines + more, hostname, path, keep) == BuiltHeader(lines, hostname, path, keep)
  {
    BlockIgnoresLaterReads(lines, more);
  }

  /** A Host line is never empty, so `host_hdr` is empty only when no Host line came. */
  lemma HostLineNotEmpty(line: string)
    requires IsHostLine(line)
    ensures |CString(line)| >= |HostKey|
  {
  }

  /**
   * `host_hdr` holds the last Host line of the block, and is empty exactly when the block has
   * no Host line.
   */
  lemma {:induction false} LastHostIsLast(block: seq<string>)
    ensures LastHost(block) == "" <==> forall i :: 0 <= i < |block| ==> !IsHostLine(block[i])
    ensures LastHost(block) != "" ==>
      exists i :: 0 <= i < |block| && IsHostLine(block[i]) && LastHost(block) == CString(block[i]) &&
        forall j :: i < j < |block| ==> !IsHostLine(block[j])
  {
    if block != [] {
      var last := |block| - 1;
      var init := block[..last];
      LastHostIsLast(init);
      assert forall i :: 0 <= i < last ==> init[i] == block[i];
      if IsHostLine(block[last]) {
        HostLineNotEmpty(block[last]);
      } else if LastHost(init) != "" {
        var i :| 0 <= i < |init| && IsHostLine(init[i]) && LastHost(init) == CString(init[i]) &&
          forall j :: i < j < |init| ==> !IsHostLine(init[j]);
        assert IsHostLine(block[i]) && forall j :: i < j < |block| ==> !IsHostLine(block[j]);
      }
    }
  }

  /** The passthrough lines of two stretches of reads follow one another. */
  lemma {:induction false} KeptAppend(a: seq<string>, b: seq<string>, keep: string -> bool)
    ensures Kept(a + b, keep) == Kept(a, keep) + Kept(b, keep)
  {
    if b == [] {
      assert a + b == a;
    } else {
      var init := b[..|b| - 1];
      assert (a + b)[..|a + b| - 1] == a + init;
      KeptAppend(a, init, keep);
    }
  }

  /**
   * A line is passed through exactly when some read of the block holds it, is not a Host
   * line, and passes `keep`.
   */
  lemma {:induction false} KeptMembers(block: seq<string>, keep: string -> bool, x: string)
    ensures x in Kept(block, keep) <==>
      exists i :: 0 <= i < |block| && !IsHostLine(block[i]) && keep(CString(block[i])) && x == CString(block[i])
  {
    if block != [] {
      var last := |block| - 1;
      var init := block[..last];
      KeptMembers(init, keep, x);
      assert forall i :: 0 <= i < last ==> init[i] == block[i];
      if x in Kept(block, keep) && x !in Kept(init, keep) {
        assert !IsHostLine(block[last]) && keep(CString(block[last])) && x == CString(block[last]);
      }
    }
  }

  /** Nothing a test rejects is passed through, and no Host line is. */
  lemma {:induction false} KeptPass(block: seq<string>, keep: string -> bool)
    ensures forall x :: x in Kept(block, keep) ==> keep(x) && !StartsWithIgnoreCase(x, HostKey)
  {
    if block != [] {
      KeptPass(block[..|block| - 1], keep);
    }
  }

  /** A test that rejects every line leaves `other_hdr` empty. */
  lemma {:induction false} KeptNothing(block: seq<string>, keep: string -> bool)
    requires forall x :: !keep(x)
    ensures Kept(block, keep) == [] && Passthrough(block, keep) == ""
  {
    if block != [] {
      KeptNothing(block[..|block| - 1], keep);
    }
  }

  /** The number of fields that start, case-insensitively, with `key`. */
  function CountStarting(fields: seq<string>, key: string): nat {
    if fields == [] then 0
    else CountStarting(fields[..|fields| - 1], key) + Starts(fields[|fields| - 1], key)
  }

  /** 1 if `x` starts with `key`, else 0. */
  function Starts(x: string, key: string): nat {
    if StartsWithIgnoreCase(x, key) then 1 else 0
  }

  lemma CountSnoc(fields: seq<string>, x: string, key: string)
    ensures CountStarting(fields + [x], key) == CountStarting(fields, key) + Starts(x, key)
  {
    assert (fields + [x])[..|fields|] == fields;
  }

  lemma {:induction false} CountAppend(a: seq<string>, b: seq<string>, key: string)
    ensures CountStarting(a + b, key) == CountStarting(a, key) + CountStarting(b, key)
  {
    if b == [] {
      assert a + b == a;
    } else {
      var init := b[..|b| - 1];
      assert (a + b)[..|a + b| - 1] == a + init;
      CountAppend(a, init, key);
    }
  }

  lemma {:induction false} CountNone(fields: seq<string>, key: string)
    requires forall x :: x in fields ==> !StartsWithIgnoreCase(x, key)
    ensures CountStarting(fields, key) == 0
  {
    if fields != [] {
      CountNone(fields[..|fields| - 1], key);
    }
  }

  /** How many header fields start with `key`, field by field. */
  lemma {:induction false} FieldsCount(path: string, hostHdr: string, kept: seq<string>, key: string)
    ensures CountStarting(HeaderFields(path, hostHdr, kept), key) ==
      Starts(RequestHdr(path), key) + Starts(hostHdr, key) + Starts(ConnHdr, key) + Starts(ProxHdr, key) +
      Starts(UserAgentHdr, key) + CountStarting(kept, key) + Starts(EndOfHdr, key)
  {
    var f1 := [RequestHdr(path)];
    var f2 := f1 + [hostHdr];
    var f3 := f2 + [ConnHdr];
    var f4 := f3 + [ProxHdr];
    var f5 := f4 + [UserAgentHdr];
    assert f1 == [] + [RequestHdr(path)];
    CountSnoc([], RequestHdr(path), key);
    CountSnoc(f1, hostHdr, key);
    CountSnoc(f2, ConnHdr, key);
    CountSnoc(f3, ProxHdr, key);
    CountSnoc(f4, UserAgentHdr, key);
    CountAppend(f5, kept, key);
    CountSnoc(f5 + kept, EndOfHdr, key);
    assert HeaderFields(path, hostHdr, kept) == f5 + kept + [EndOfHdr];
  }

  /** The Host header is a Host line: the client's, or the one made from the hostname. */
  lemma HostHeaderIsHost(block: seq<string>, hostname: string)
    ensures StartsWithIgnoreCase(HostHeader(block, hostname), HostKey)
  {
    var h := LastHost(block);
    if |h| == 0 {
      assert HostHdrFor(hostname) == HostKey + (": " + hostname + "\r\n");
      StartsWithKey(HostKey, ": " + hostname + "\r\n");
    } else {
      LastHostIsLast(block);
    }
  }

  /** A field that starts with "Host" starts with none of the three other keys. */
  lemma HostIsNoOtherKey(x: string)
    requires StartsWithIgnoreCase(x, HostKey)
    ensures !StartsWithIgnoreCase(x, ConnectionKey) && !StartsWithIgnoreCase(x, ProxyConnectionKey)
      && !StartsWithIgnoreCase(x, UserAgentKey)
  {
    assert Lower(x[0]) == 'h';
    FirstCharMismatch(x, ConnectionKey);
    FirstCharMismatch(x, ProxyConnectionKey);
    FirstCharMismatch(x, UserAgentKey);
  }

  /** The request line starts with none of the keys. */
  lemma RequestHdrKeys(path: string)
    ensures Starts(RequestHdr(path), HostKey) == 0 && Starts(RequestHdr(path), ConnectionKey) == 0 &&
      Starts(RequestHdr(path), ProxyConnectionKey) == 0 && Starts(RequestHdr(path), UserAgentKey) == 0
  {
    var r := RequestHdr(path);
    assert r[0] == 'G';
    FirstCharMismatch(r, HostKey);
    FirstCharMismatch(r, ConnectionKey);
    FirstCharMismatch(r, ProxyConnectionKey);
    FirstCharMismatch(r, UserAgentKey);
  }

  lemma ConnHdrKeys()
    ensures Starts(ConnHdr, HostKey) == 0 && Starts(ConnHdr, ConnectionKey) == 1 &&
      Starts(ConnHdr, ProxyConnectionKey) == 0 && Starts(ConnHdr, UserAgentKey) == 0
  {
    assert ConnHdr == ConnectionKey + ": close\r\n";
    StartsWithKey(ConnectionKey, ": close\r\n");
    FirstCharMismatch(ConnHdr, HostKey);
    FirstCharMismatch(ConnHdr, ProxyConnectionKey);
    FirstCharMismatch(ConnHdr, UserAgentKey);
  }

  lemma ProxHdrKeys()
    ensures Starts(ProxHdr, HostKey) == 0 && Starts(ProxHdr, ConnectionKey) == 0 &&
      Starts(ProxHdr, ProxyConnectionKey) == 1 && Starts(ProxHdr, UserAgentKey) == 0
  {
    assert ProxHdr == ProxyConnectionKey + ": close\r\n";
    StartsWithKey(ProxyConnectionKey, ": close\r\n");
    FirstCharMismatch(ProxHdr, HostKey);
    FirstCharMismatch(ProxHdr, ConnectionKey);
    FirstCharMismatch(ProxHdr, UserAgentKey);
  }

  lemma UserAgentHdrKeys()
    ensures Starts(UserAgentHdr, HostKey) == 0 && Starts(UserAgentHdr, ConnectionKey) == 0 &&
      Starts(UserAgentHdr, ProxyConnectionKey) == 0 && Starts(UserAgentHdr, UserAgentKey) == 1
  {
    var rest := UserAgentHdr[|UserAgentKey|..];
    assert UserAgentHdr[..|UserAgentKey|] == UserAgentKey;
    assert UserAgentHdr == UserAgentKey + rest;
    StartsWithKey(UserAgentKey, rest);
    FirstCharMismatch(UserAgentHdr, HostKey);
    FirstCharMismatch(UserAgentHdr, ConnectionKey);
    FirstCharMismatch(UserAgentHdr, ProxyConnectionKey);
  }

  lemma EndOfHdrKeys()
    ensures Starts(EndOfHdr, HostKey) == 0 && Starts(EndOfHdr, ConnectionKey) == 0 &&
      Starts(EndOfHdr, ProxyConnectionKey) == 0 && Starts(EndOfHdr, UserAgentKey) == 0
  {
    FirstCharMismatch(EndOfHdr, HostKey);
    FirstCharMismatch(EndOfHdr, ConnectionKey);
    FirstCharMismatch(EndOfHdr, ProxyConnectionKey);
    FirstCharMismatch(EndOfHdr, UserAgentKey);
  }

  /**
   * With a test that rejects Connection, Proxy-Connection and User-Agent lines, the header
   * has exactly one field of each of the four kinds the proxy sets itself.
   */
  lemma {:induction false} ExactlyOneOfEach(path: string, block: seq<string>, hostname: string, keep: string -> bool)
    requires forall x :: keep(x) ==>
      !StartsWithIgnoreCase(x, ConnectionKey) && !StartsWithIgnoreCase(x, ProxyConnectionKey) &&
      !StartsWithIgnoreCase(x, UserAgentKey)
    ensures var fields := HeaderFields(path, HostHeader(block, hostname), Kept(block, keep));
      CountStarting(fields, HostKey) == 1 && CountStarting(fields, ConnectionKey) == 1 &&
      CountStarting(fields, ProxyConnectionKey) == 1 && CountStarting(fields, UserAgentKey) == 1
  {
    var h := HostHeader(block, hostname);
    var kept := Kept(block, keep);
    HostHeaderIsHost(block, hostname);
    HostIsNoOtherKey(h);
    KeptPass(block, keep);
    CountNone(kept, HostKey);
    CountNone(kept, ConnectionKey);
    CountNone(kept, ProxyConnectionKey);
    CountNone(kept, UserAgentKey);
    RequestHdrKeys(path);
    ConnHdrKeys();
    ProxHdrKeys();
    UserAgentHdrKeys();
    EndOfHdrKeys();
    FieldsCount(path, h, kept, HostKey);
    FieldsCount(path, h, kept, ConnectionKey);
    FieldsCount(path, h, kept, ProxyConnectionKey);
    FieldsCount(path, h, kept, UserAgentKey);
  }

  lemma Regroup(a: string, b: string, c: string, d: string, e: string, f: string, g: string)
    ensures a + b + c + d + e + f + g == a + (b + c + d + e + f + g)
  {
  }

  /** None of the fixed parts of the header holds a NUL, so `strlen` measures all of it. */
  lemma FixedPartsNulFree(path: string)
    requires '\0' !in path
    ensures '\0' !in RequestHdr(path) && '\0' !in ConnHdr && '\0' !in ProxHdr
    ensures '\0' !in UserAgentHdr && '\0' !in EndOfHdr
  {
    RequestHdrNulFree(path);
    UserAgentHdrNulFree();
    assert '\0' !in ConnHdr;
    assert '\0' !in ProxHdr;
  }

  lemma RequestHdrNulFree(path: string)
    requires '\0' !in path
    ensures '\0' !in RequestHdr(path)
  {
    assert '\0' !in "GET " && '\0' !in " HTTP/1.0\r\n";
  }

  lemma UserAgentHdrNulFree()
    ensures '\0' !in UserAgentHdr
  {
    var a, b := "User-Agent: Mozilla/5.0 ", "(X11; Linux x86_64; rv:10.0.3) ";
    var c, d := "Gecko/20120305 ", "Firefox/10.0.3\r\n";
    assert UserAgentHdr == a + b + c + d;
    NulFreeLiteral1();
    NulFreeLiteral2();
  }

  lemma NulFreeLiteral1()
    ensures '\0' !in "User-Agent: Mozilla/5.0 " && '\0' !in "(X11; Linux x86_64; rv:10.0.3) "
  {
    assert '\0' !in "User-Agent: Mozilla/5.0 ";
  }

  lemma NulFreeLiteral2()
    ensures '\0' !in "Gecko/20120305 " && '\0' !in "Firefox/10.0.3\r\n"
  {
    assert '\0' !in "Gecko/20120305 ";
  }

  /** A header built from NUL-free parts is NUL-free. */
  lemma HeaderNulFree(path: string, hostHdr: string, otherHdr: string)
    requires '\0' !in path && '\0' !in hostHdr && '\0' !in otherHdr
    ensures '\0' !in HttpHeader(path, hostHdr, otherHdr)
  {
    FixedPartsNulFree(path);
  }

  lemma {:induction false} ConcatNulFree(ls: seq<string>)
    requires forall i :: 0 <= i < |ls| ==> '\0' !in ls[i]
    ensures '\0' !in Concat(ls)
  {
    if ls != [] {
      ConcatNulFree(ls[..|ls| - 1]);
    }
  }

  lemma {:induction false} KeptNulFree(block: seq<string>, keep: string -> bool)
    ensures forall i :: 0 <= i < |Kept(block, keep)| ==> '\0' !in Kept(block, keep)[i]
  {
    if block != [] {
      KeptNulFree(block[..|block| - 1], keep);
    }
  }

  lemma {:induction false} LastHostNulFree(block: seq<string>)
    ensures '\0' !in LastHost(block)
  {
    if block != [] {
      LastHostNulFree(block[..|block| - 1]);
    }
  }

  lemma HostHdrNulFree(hostname: string)
    requires '\0' !in hostname
    ensures '\0' !in HostHdrFor(hostname)
  {
    assert '\0' !in "Host: " && '\0' !in "\r\n";
  }

  /**
   * The header holds no NUL, so the `strlen(http_header)` bytes `doit` writes to the server
   * are the whole header.
   */
  lemma {:induction false} BuiltHeaderNulFree(lines: seq<string>, hostname: Option<string>, path: Option<string>,
                                              keep: string -> bool)
    requires '\0' !in hostname.GetOr("") && '\0' !in path.GetOr("")
    ensures '\0' !in BuiltHeader(lines, hostname, path, keep)
    ensures CString(BuiltHeader(lines, hostname, path, keep)) == BuiltHeader(lines, hostname, path, keep)
  {
    var block := lines[..BlockLength(lines)];
    LastHostNulFree(block);
    HostHdrNulFree(hostname.GetOr(""));
    KeptNulFree(block, keep);
    ConcatNulFree(Kept(block, keep));
    HeaderNulFree(path.GetOr(""), HostHeader(block, hostname.GetOr("")), Passthrough(block, keep));
    CStringOfNulFree(BuiltHeader(lines, hostname, path, keep));
  }

  /**
   * The origin server sees a request line `GET path HTTP/1.0` (section 5.1 of RFC 1945):
   * reading the header back as the proxy reads its own clients gives GET and the path.
   */
  lemma {:induction false} RequestLineOfHeader(path: string, hostHdr: string, otherHdr: string)
    requires IsToken(path) && path != []
    requires '\0' !in hostHdr && '\0' !in otherHdr
    ensures RequestLine(HttpHeader(path, hostHdr, otherHdr)) == ("GET", path)
  {
    var version := " HTTP/1.0\r\n";
    var tail := hostHdr + ConnHdr + ProxHdr + UserAgentHdr + otherHdr + EndOfHdr;
    var rest := version + tail;
    assert HttpHeader(path, hostHdr, otherHdr) == "GET" + " " + path + rest by {
      Regroup(RequestHdr(path), hostHdr, ConnHdr, ProxHdr, UserAgentHdr, otherHdr, EndOfHdr);
      assert RequestHdr(path) == "GET" + " " + path + version by {
        assert "GET " == "GET" + " ";
      }
    }
    assert '\0' !in rest by {
      FixedPartsNulFree(path);
      assert '\0' !in version;
    }
    assert rest[0] == ' ';
    RequestLineOfWords("GET", path, rest);
  }
}
