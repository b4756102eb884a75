/**
 * `parse_uri`, which both proxy.c and proxy1.c contain in the same form: it splits an
 * absolute-form request target (section 5.3.2 of RFC 7230) into hostname, port and path
 * with `strstr` and `sscanf`, writing a NUL into the caller's `uri` buffer on the way.
 */
module UriParser {
  import opened Wrappers
  import opened CText

  /**
   * What `parse_uri` leaves behind: its three out-parameters (None for a buffer that no
   * `sscanf` conversion stored into) and the contents of the caller's `uri` buffer.
   */
  datatype Target = Target(hostname: Option<string>, port: int, path: Option<string>, uri: seq<char>)

  /** Where the host starts in the C string `s`: just after the first "//", or at index 0. */
  function HostStart(s: string): (i: nat)
    ensures i <= |s|
  {
    match Find(s, "//")
    case Some(j) => j + 2
    case None => 0
  }

  /** The outcome of `parse_uri` on a `uri` buffer with contents `buf`. */
  function Parse(buf: seq<char>): Target {
    var s := CString(buf);
    var hs := HostStart(s);
    match Find(s[hs..], ":")
    case Some(k) => ColonCut(buf, hs, hs + k)
    case None =>
      match Find(s[hs..], "/")
      case Some(k) => SlashCut(buf, hs, hs + k)
      case None => Target(Word(s[hs..]), 80, None, buf)
  }

  /**
   * The colon branch for a ':' at `p`: the buffer is cut there, the hostname is read
   * before it, and `%d%s` reads the port and the path after it.
   */
  function ColonCut(buf: seq<char>, hs: nat, p: nat): Target
    requires hs <= p < |CString(buf)|
  {
    var s := CString(buf);
    var (port, path) := ScanPortAndPath(s[p + 1..], 80);
    Target(Word(s[hs..p]), port, path, buf[p := '\0'])
  }

  /**
   * `sscanf(t, "%d%s", &port, path)`: the port keeps its value `port0` unless a number is
   * read, and the path is read only after a number.
   */
  function ScanPortAndPath(t: string, port0: int): (int, Option<string>) {
    match ScanInt(t)
    case None => (port0, None)
    case Some((port, rest)) => (port, Word(rest))
  }

  /** The slash branch for a '/' at `q`: the hostname is read before it, the path from it. */
  function SlashCut(buf: seq<char>, hs: nat, q: nat): Target
    requires hs <= q <= |CString(buf)|
  {
    var s := CString(buf);
    Target(Word(s[hs..q]), 80, Word(s[q..]), buf)
  }

  /**
   * `parse_uri(uri, hostname, path, &port)`: the port is set to 80 first; with a ':' after
   * the host start the buffer is cut there for good, otherwise a '/' is cut and put back.
   */
  method ParseUri(uri: array<char>) returns (hostname: Option<string>, path: Option<string>, port: int)
    modifies uri
    ensures var t := Parse(old(uri[..]));
      hostname == t.hostname && path == t.path && port == t.port && uri[..] == t.uri
  {
    port := 80;
    hostname, path := None, None;
    ghost var buf := uri[..];
    var s := CString(uri[..]);
    var sep := Find(s, "//");
    var pos := if sep.Some? then sep.value + 2 else 0;
    assert pos == HostStart(s);
    var colon := Find(s[pos..], ":");
    if colon.Some? {
      var p := pos + colon.value;
      ParseColonCase(buf, p);
      ColonCutOfCut(buf, pos, p);
      uri[p] := '\0';
      assert uri[..] == buf[p := '\0'];
      hostname := Word(CString(uri[pos..]));
      var scanned := ScanPortAndPath(CString(uri[p + 1..]), port);
      port, path := scanned.0, scanned.1;
    } else {
      var slash := Find(s[pos..], "/");
      if slash.Some? {
        var p := pos + slash.value;
        ParseSlashCase(buf, p);
        SlashCutOfCut(buf, pos, p);
        uri[p] := '\0';
        assert uri[..] == buf[p := '\0'];
        hostname := Word(CString(uri[pos..]));
        uri[p] := '/';
        assert uri[..] == buf;
        path := Word(CString(uri[p..]));
      } else {
        ParseHostCase(buf);
        CStringSuffix(buf, pos);
        hostname := Word(CString(uri[pos..]));
      }
    }
  }

  /** The colon branch's results, read off the buffer after the cut as `parse_uri` does. */
  lemma ColonCutOfCut(buf: seq<char>, hs: nat, p: nat)
    requires hs <= p < |CString(buf)|
    ensures var cut := buf[p := '\0'];
      ColonCut(buf, hs, p) == Target(Word(CString(cut[hs..])), ScanPortAndPath(CString(cut[p + 1..]), 80).0,
        ScanPortAndPath(CString(cut[p + 1..]), 80).1, cut)
  {
    var cut := buf[p := '\0'];
    CStringAfterTruncation(buf, p, hs);
    CStringSuffix(buf, p + 1);
    assert cut[p + 1..] == buf[p + 1..];
  }

  /** The slash branch's results, read off the buffer while it is cut and after it is restored. */
  lemma SlashCutOfCut(buf: seq<char>, hs: nat, q: nat)
    requires hs <= q < |CString(buf)| && CString(buf)[q] == '/'
    ensures buf[q := '\0'][q := '/'] == buf
    ensures SlashCut(buf, hs, q) == Target(Word(CString(buf[q := '\0'][hs..])), 80, Word(CString(buf[q..])), buf)
  {
    CStringAfterTruncation(buf, q, hs);
    CStringSuffix(buf, q);
  }

  /** The colon branch is the one `Parse` takes when `strstr` finds a ':' at `p`. */
  lemma ParseColonCase(buf: seq<char>, p: nat)
    requires var s := CString(buf); var hs := HostStart(s);
      hs <= p && Find(s[hs..], ":") == Some(p - hs)
    ensures var s := CString(buf);
      HostStart(s) <= p < |s| && s[p] == ':' && Parse(buf) == ColonCut(buf, HostStart(s), p)
  {
    var s := CString(buf);
    FoundAt(s, HostStart(s), p, ':');
    ColonCase(buf, p);
  }

  lemma ColonCase(buf: seq<char>, p: nat)
    requires var s := CString(buf); var hs := HostStart(s);
      hs <= p < |s| && Find(s[hs..], ":") == Some(p - hs)
    ensures Parse(buf) == ColonCut(buf, HostStart(CString(buf)), p)
  {
    var s := CString(buf);
    var hs := HostStart(s);
    assert hs + (p - hs) == p;
  }

  /** What `strstr(s + hs, [c])` finds lies in `s` and is a `c`. */
  lemma FoundAt(s: string, hs: nat, p: nat, c: char)
    requires hs <= p && hs <= |s| && Find(s[hs..], [c]) == Some(p - hs)
    ensures p < |s| && s[p] == c
  {
    FindSpec(s[hs..], [c]);
    assert OccursAt(s[hs..], [c], p - hs);
    assert s[hs..][p - hs..p - hs + 1] == [c];
  }

  /** The slash branch is the one `Parse` takes when `strstr` finds no ':' but a '/' at `q`. */
  lemma ParseSlashCase(buf: seq<char>, q: nat)
    requires var s := CString(buf); var hs := HostStart(s);
      hs <= q && Find(s[hs..], ":") == None && Find(s[hs..], "/") == Some(q - hs)
    ensures var s := CString(buf);
      HostStart(s) <= q < |s| && s[q] == '/' && Parse(buf) == SlashCut(buf, HostStart(s), q)
  {
    var s := CString(buf);
    FoundAt(s, HostStart(s), q, '/');
    SlashCase(buf, q);
  }

  lemma SlashCase(buf: seq<char>, q: nat)
    requires var s := CString(buf); var hs := HostStart(s);
      hs <= q <= |s| && Find(s[hs..], ":") == None && Find(s[hs..], "/") == Some(q - hs)
    ensures Parse(buf) == SlashCut(buf, HostStart(CString(buf)), q)
  {
    var s := CString(buf);
    var hs := HostStart(s);
    assert Find(s[hs..], ":").None?;
  }

  /** Without ':' or '/' after the host start, `Parse` reads only the hostname. */
  lemma ParseHostCase(buf: seq<char>)
    requires var s := CString(buf); var hs := HostStart(s);
      Find(s[hs..], ":") == None && Find(s[hs..], "/") == None
    ensures var s := CString(buf);
      Parse(buf) == Target(Word(s[HostStart(s)..]), 80, None, buf)
  {
  }

  /** The host starts at 0 exactly when `uri` holds no "//", else just after the first one. */
  lemma HostStartAfterFirstSeparator(s: string)
    ensures HostStart(s) == 0 <==> forall j :: 0 <= j ==> !OccursAt(s, "//", j)
    ensures HostStart(s) > 0 ==>
      OccursAt(s, "//", HostStart(s) - 2) && forall j :: 0 <= j < HostStart(s) - 2 ==> !OccursAt(s, "//", j)
  {
    FindSpec(s, "//");
  }

  /** `strstr(s + from, [c])` finds the first `c` at or after `from`. */
  lemma FirstAfter(s: string, c: char, from: nat, p: nat)
    requires from <= p < |s| && s[p] == c
    requires forall j :: from <= j < p ==> s[j] != c
    ensures Find(s[from..], [c]) == Some(p - from)
  {
    FindChar(s[from..], c);
  }

  /** `strstr(s + from, [c])` is NULL when no `c` follows `from`. */
  lemma NoneAfter(s: string, c: char, from: nat)
    requires from <= |s|
    requires forall j :: from <= j < |s| ==> s[j] != c
    ensures Find(s[from..], [c]) == None
  {
    FindChar(s[from..], c);
  }

  lemma TokenSlice(s: string, i: nat, j: nat)
    requires IsToken(s) && i <= j <= |s|
    ensures IsToken(s[i..j])
  {
  }

  /** The port text does not begin with what `%d` accepts. */
  predicate BeginsNumber(t: string) {
    t != [] && (IsDigit(t[0]) || ((t[0] == '+' || t[0] == '-') && |t| > 1 && IsDigit(t[1])))
  }

  /** The first ':' after the host start selects the colon branch. */
  lemma ParseAtColon(buf: seq<char>, p: nat)
    requires HostStart(CString(buf)) <= p < |CString(buf)| && CString(buf)[p] == ':'
    requires forall j :: HostStart(CString(buf)) <= j < p ==> CString(buf)[j] != ':'
    ensures Parse(buf) == ColonCut(buf, HostStart(CString(buf)), p)
  {
    var s := CString(buf);
    var hs := HostStart(s);
    assert Find(s[hs..], ":") == Some(p - hs) by {
      FirstAfter(s, ':', hs, p);
      assert [':'] == ":";
    }
    ColonCase(buf, p);
  }

  /** Without a ':' after the host start, the first '/' selects the slash branch. */
  lemma ParseAtSlash(buf: seq<char>, q: nat)
    requires forall j :: HostStart(CString(buf)) <= j < |CString(buf)| ==> CString(buf)[j] != ':'
    requires HostStart(CString(buf)) <= q < |CString(buf)| && CString(buf)[q] == '/'
    requires forall j :: HostStart(CString(buf)) <= j < q ==> CString(buf)[j] != '/'
    ensures Parse(buf) == SlashCut(buf, HostStart(CString(buf)), q)
  {
    var s := CString(buf);
    var hs := HostStart(s);
    assert Find(s[hs..], ":") == None by {
      NoneAfter(s, ':', hs);
      assert [':'] == ":";
    }
    assert Find(s[hs..], "/") == Some(q - hs) by {
      FirstAfter(s, '/', hs, q);
      assert ['/'] == "/";
    }
    SlashCase(buf, q);
  }

  /** With neither a ':' nor a '/' after the host start, only the hostname is read. */
  lemma ParseHostOnly(buf: seq<char>)
    requires forall j :: HostStart(CString(buf)) <= j < |CString(buf)| ==> CString(buf)[j] != ':' && CString(buf)[j] != '/'
    ensures Parse(buf) == Target(Word(CString(buf)[HostStart(CString(buf))..]), 80, None, buf)
  {
    var s := CString(buf);
    var hs := HostStart(s);
    assert Find(s[hs..], ":") == None by {
      NoneAfter(s, ':', hs);
      assert [':'] == ":";
    }
    assert Find(s[hs..], "/") == None by {
      NoneAfter(s, '/', hs);
      assert ['/'] == "/";
    }
    ParseHostCase(buf);
  }

  /** On a token, the colon branch reads the hostname as the text before the ':'. */
  lemma ColonCutHost(s: string, hs: nat, p: nat)
    requires IsToken(s) && hs <= p < |s|
    ensures ColonCut(s, hs, p).hostname == if hs < p then Some(s[hs..p]) else None
  {
    CStringOfNulFree(s);
    TokenSlice(s, hs, p);
    WordOfToken(s[hs..p]);
  }

  /** The colon branch leaves the buffer holding the C string before the ':'. */
  lemma ColonCutTruncates(s: string, hs: nat, p: nat)
    requires '\0' !in s && hs <= p < |s|
    ensures ColonCut(s, hs, p).uri == s[p := '\0'] && CString(ColonCut(s, hs, p).uri) == s[..p]
  {
    CStringOfNulFree(s);
    assert s[p := '\0'][..p] == s[..p];
    CStringOfPrefix(s[p := '\0'], p);
  }

  /**
   * The colon branch, taken for the first ':' anywhere after the host start (even past a
   * '/'): the buffer stays cut at the ':', the hostname is the text before it, and the port
   * and the path are what `%d%s` reads after it.
   */
  lemma ColonBranch(s: string, p: nat)
    requires IsToken(s)
    requires HostStart(s) <= p < |s| && s[p] == ':'
    requires forall j :: HostStart(s) <= j < p ==> s[j] != ':'
    ensures Parse(s).uri == s[p := '\0'] && CString(Parse(s).uri) == s[..p]
    ensures Parse(s).hostname == if HostStart(s) < p then Some(s[HostStart(s)..p]) else None
    ensures (Parse(s).port, Parse(s).path) == ScanPortAndPath(s[p + 1..], 80)
  {
    CStringOfNulFree(s);
    ParseAtColon(s, p);
    ColonCutHost(s, HostStart(s), p);
    ColonCutTruncates(s, HostStart(s), p);
    ColonCutOf(s, HostStart(s), p, s[HostStart(s)..p], s[p + 1..]);
  }

  /** A digit run is read as the port, and whatever follows it as the path. */
  lemma ScanDigits(t: string)
    requires IsToken(t) && DigitRun(t) > 0
    ensures var n := DigitRun(t);
      ScanPortAndPath(t, 80) == (DigitsValue(t[..n]) as int, if n < |t| then Some(t[n..]) else None)
  {
    var n := DigitRun(t);
    ScanUnsigned(t);
    TokenSlice(t, n, |t|);
    WordOfToken(t[n..]);
  }

  /** Without a number to read, the port keeps its value and the path is never set. */
  lemma ScanNoNumber(t: string, port0: int)
    requires IsToken(t) && !BeginsNumber(t)
    ensures ScanPortAndPath(t, port0) == (port0, None)
  {
    if t != [] {
      SkipSpaceOfNonSpace(t);
    }
  }

  /** When no number follows the ':', the port stays 80 and the path is never set. */
  lemma ColonWithoutNumber(s: string, p: nat)
    requires IsToken(s)
    requires HostStart(s) <= p < |s| && s[p] == ':'
    requires forall j :: HostStart(s) <= j < p ==> s[j] != ':'
    requires !BeginsNumber(s[p + 1..])
    ensures Parse(s).port == 80 && Parse(s).path == None
  {
    ColonBranch(s, p);
    TokenSlice(s, p + 1, |s|);
    ScanNoNumber(s[p + 1..], 80);
  }

  /**
   * The slash branch, taken when no ':' follows the host start: the buffer is restored byte
   * for byte, the hostname is the text before the first '/', and the path runs from that '/'
   * to the end.
   */
  lemma SlashBranch(s: string, q: nat)
    requires IsToken(s)
    requires forall j :: HostStart(s) <= j < |s| ==> s[j] != ':'
    requires HostStart(s) <= q < |s| && s[q] == '/'
    requires forall j :: HostStart(s) <= j < q ==> s[j] != '/'
    ensures Parse(s) == Target(if HostStart(s) < q then Some(s[HostStart(s)..q]) else None, 80, Some(s[q..]), s)
  {
    var hs := HostStart(s);
    CStringOfNulFree(s);
    ParseAtSlash(s, q);
    TokenSlice(s, hs, q);
    WordOfToken(s[hs..q]);
    TokenSlice(s, q, |s|);
    WordOfToken(s[q..]);
  }

  /** With neither a ':' nor a '/' after the host start, all of it is the hostname. */
  lemma HostOnly(s: string)
    requires IsToken(s)
    requires forall j :: HostStart(s) <= j < |s| ==> s[j] != ':' && s[j] != '/'
    ensures Parse(s) == Target(if HostStart(s) < |s| then Some(s[HostStart(s)..]) else None, 80, None, s)
  {
    var hs := HostStart(s);
    CStringOfNulFree(s);
    ParseHostOnly(s);
    TokenSlice(s, hs, |s|);
    WordOfToken(s[hs..]);
  }

  /** An occurrence of a pattern begins with the pattern's first character. */
  lemma OccursAtHead(s: string, pat: string, j: int)
    requires pat != []
    ensures OccursAt(s, pat, j) ==> s[j] == pat[0]
  {
    if OccursAt(s, pat, j) {
      assert s[j..j + |pat|][0] == s[j];
    }
  }

  /** The host of `scheme + "//" + rest` starts right after the "//". */
  lemma HostStartOfAbsoluteForm(scheme: string, rest: string)
    requires '/' !in scheme
    ensures HostStart(scheme + "//" + rest) == |scheme| + 2
  {
    var s := scheme + "//" + rest;
    assert s[|scheme|..|scheme| + 2] == "//";
    forall j | 0 <= j < |scheme| ensures !OccursAt(s, "//", j) {
      assert s[j] == scheme[j];
      OccursAtHead(s, "//", j);
    }
    FindFirst(s, "//", |scheme|);
  }

  /**
   * A well-formed absolute-form target `scheme://host:port/path` yields exactly its host,
   * port and path; the caller's buffer keeps only `scheme://host`.
   */
  lemma AbsoluteFormWithPort(scheme: string, host: string, port: int, path: string)
    requires IsToken(scheme) && IsToken(host) && IsToken(path)
    requires '/' !in scheme && ':' !in host && '/' !in host && host != []
    requires path == [] || path[0] == '/'
    ensures var uri := scheme + "//" + host + ":" + IntToDecimal(port) + path;
      Parse(uri) == Target(Some(host), port, if path == [] then None else Some(path), uri[|scheme| + 2 + |host| := '\0']) &&
      CString(Parse(uri).uri) == scheme + "//" + host
  {
    ScanIntOfDecimal(port, path);
    WordOfToken(path);
    WordOfToken(host);
    AbsoluteFormParse(scheme, host, IntToDecimal(port), path);
  }

  /** `scheme://host:after` takes the colon branch at the ':' after the host. */
  lemma AbsoluteFormParse(scheme: string, host: string, digits: string, path: string)
    requires IsToken(scheme) && IsToken(host) && IsToken(digits) && IsToken(path)
    requires '/' !in scheme && ':' !in host
    ensures var uri := scheme + "//" + host + ":" + digits + path;
      var sp := ScanPortAndPath(digits + path, 80);
      Parse(uri) == Target(Word(host), sp.0, sp.1, uri[|scheme| + 2 + |host| := '\0'])
    ensures var uri := scheme + "//" + host + ":" + digits + path;
      CString(Parse(uri).uri) == scheme + "//" + host
  {
    AbsoluteFormLayout(scheme, host, digits, path);
    var uri := scheme + "//" + host + ":" + digits + path;
    ColonParseOf(uri, |scheme| + 2, |scheme| + 2 + |host|, host, digits + path);
  }

  /**
   * The colon branch on a NUL-free buffer whose first ':' after the host start is at `p`,
   * given the text before and after that ':'.
   */
  lemma ColonParseOf(s: string, hs: nat, p: nat, host: string, after: string)
    requires '\0' !in s && HostStart(s) == hs && hs <= p < |s|
    requires Find(s[hs..], ":") == Some(p - hs)
    requires s[hs..p] == host && s[p + 1..] == after
    ensures Parse(s) ==
      Target(Word(host), ScanPortAndPath(after, 80).0, ScanPortAndPath(after, 80).1, s[p := '\0'])
    ensures CString(Parse(s).uri) == s[..p]
  {
    CStringOfNulFree(s);
    ColonCase(s, p);
    ColonCutOf(s, hs, p, host, after);
    ColonCutTruncates(s, hs, p);
  }

  /** In `host + tail` with `tail` starting with ':', the first ':' ends the host. */
  lemma FirstColonAfterHost(host: string, tail: string)
    requires ':' !in host && tail != [] && tail[0] == ':'
    ensures Find(host + tail, ":") == Some(|host|)
  {
    var rest := host + tail;
    assert rest[|host|] == ':';
    forall j | 0 <= j < |host| ensures rest[j] != ':' {
      assert rest[j] == host[j];
    }
    FirstAfter(rest, ':', 0, |host|);
    assert rest[0..] == rest;
    assert [':'] == ":";
  }

  /** The colon branch on a NUL-free buffer, given the text before and after the ':'. */
  lemma ColonCutOf(s: string, hs: nat, p: nat, host: string, after: string)
    requires '\0' !in s && hs <= p < |s| && s[hs..p] == host && s[p + 1..] == after
    ensures ColonCut(s, hs, p) ==
      Target(Word(host), ScanPortAndPath(after, 80).0, ScanPortAndPath(after, 80).1, s[p := '\0'])
  {
    CStringOfNulFree(s);
  }

  /** Where the parts of `scheme://host:digits path` sit, and that its first ':' after the "//" ends the host. */
  lemma AbsoluteFormLayout(scheme: string, host: string, digits: string, path: string)
    requires IsToken(scheme) && IsToken(host) && IsToken(digits) && IsToken(path)
    requires '/' !in scheme && ':' !in host
    ensures var uri := scheme + "//" + host + ":" + digits + path;
      var hs := |scheme| + 2;
      var p := hs + |host|;
      '\0' !in uri && HostStart(uri) == hs && p < |uri| && Find(uri[hs..], ":") == Some(p - hs) &&
      uri[hs..p] == host && uri[p + 1..] == digits + path && uri[..p] == scheme + "//" + host
  {
    LayoutNulFree(scheme, host, digits, path);
    LayoutHost(scheme, host, digits, path);
    LayoutSlices(scheme, host, digits, path);
  }

  lemma LayoutNulFree(scheme: string, host: string, digits: string, path: string)
    requires IsToken(scheme) && IsToken(host) && IsToken(digits) && IsToken(path)
    ensures '\0' !in scheme + "//" + host + ":" + digits + path
  {
    TokensConcat(scheme + "//" + host + ":", digits + path);
    assert scheme + "//" + host + ":" + digits + path == (scheme + "//" + host + ":") + (digits + path);
  }

  lemma LayoutHost(scheme: string, host: string, digits: string, path: string)
    requires '/' !in scheme && ':' !in host
    ensures var uri := scheme + "//" + host + ":" + digits + path;
      HostStart(uri) == |scheme| + 2 && Find(uri[|scheme| + 2..], ":") == Some(|host|)
  {
    var rest := host + (":" + digits + path);
    var uri := scheme + "//" + rest;
    assert uri == scheme + "//" + host + ":" + digits + path;
    HostStartOfAbsoluteForm(scheme, rest);
    assert uri[|scheme| + 2..] == rest;
    FirstColonAfterHost(host, ":" + digits + path);
  }

  lemma LayoutSlices(scheme: string, host: string, digits: string, path: string)
    ensures var uri := scheme + "//" + host + ":" + digits + path;
      var hs := |scheme| + 2;
      var p := hs + |host|;
      p < |uri| && uri[hs..p] == host && uri[p + 1..] == digits + path && uri[..p] == scheme + "//" + host
  {
    var front := scheme + "//";
    var before := front + host;
    var tail := ":" + digits + path;
    var uri := scheme + "//" + host + ":" + digits + path;
    assert uri == before + tail;
    AppendSlices(before, tail);
    AppendSlices(front, host);
    assert tail[1..] == digits + path;
    assert uri[|front|..|before|] == before[|front|..];
  }

  lemma AppendSlices(x: string, y: string)
    ensures (x + y)[..|x|] == x && (x + y)[|x|..] == y
  {
  }

  lemma TokensConcat(a: string, b: string)
    requires IsToken(a) && IsToken(b)
    ensures IsToken(a + b)
  {
  }

  /**
   * Without a port, `scheme://host/path` yields the host, port 80 and the path, and the
   * buffer is left as it was; this needs a path with no ':' in it.
   */
  lemma AbsoluteFormWithoutPort(scheme: string, host: string, path: string)
    requires IsToken(scheme) && IsToken(host) && IsToken(path)
    requires '/' !in scheme && ':' !in host && '/' !in host && host != []
    requires path != [] && path[0] == '/' && ':' !in path
    ensures var uri := scheme + "//" + host + path;
      Parse(uri) == Target(Some(host), 80, Some(path), uri)
  {
    var uri := scheme + "//" + host + path;
    var hs := |scheme| + 2;
    var q := hs + |host|;
    HostStartOfAbsoluteForm(scheme, host + path);
    assert uri == scheme + "//" + (host + path);
    assert IsToken(uri);
    forall j | hs <= j < |uri| ensures uri[j] != ':' {
      if j < q {
        assert uri[j] == host[j - hs];
      } else {
        assert uri[j] == path[j - q];
      }
    }
    forall j | hs <= j < q ensures uri[j] != '/' {
      assert uri[j] == host[j - hs];
    }
    assert uri[q] == '/';
    SlashBranch(uri, q);
    assert uri[hs..q] == host;
    assert uri[q..] == path;
  }

  /** A bare `host` yields the host, port 80 and no path. */
  lemma BareHost(host: string)
    requires IsToken(host) && host != []
    requires ':' !in host && '/' !in host
    ensures Parse(host) == Target(Some(host), 80, None, host)
  {
    forall j | 0 <= j ensures !OccursAt(host, "//", j) {
      OccursAtHead(host, "//", j);
    }
    FindSpec(host, "//");
    assert HostStart(host) == 0;
    HostOnly(host);
    assert host[0..] == host;
  }

  /** Whatever `parse_uri` stores in `hostname` and `path` is a single NUL-free word. */
  lemma ParseTokens(buf: seq<char>)
    ensures IsToken(Parse(buf).hostname.GetOr("")) && IsToken(Parse(buf).path.GetOr(""))
  {
    var s := CString(buf);
    var hs := HostStart(s);
    match Find(s[hs..], ":")
    case Some(k) =>
      ColonTokens(s, hs, hs + k);
    case None =>
      match Find(s[hs..], "/")
      case Some(k) =>
        SlashTokens(s, hs, hs + k);
      case None =>
        SliceNulFree(s, hs, |s|);
        WordIsToken(s[hs..]);
  }

  lemma ColonTokens(s: string, hs: nat, p: nat)
    requires '\0' !in s && hs <= p < |s|
    ensures IsToken(Word(s[hs..p]).GetOr("")) && IsToken(ScanPortAndPath(s[p + 1..], 80).1.GetOr(""))
  {
    SliceNulFree(s, hs, p);
    WordIsToken(s[hs..p]);
    var t := s[p + 1..];
    SliceNulFree(s, p + 1, |s|);
    ScanIntRest(t);
    if ScanInt(t).Some? {
      WordIsToken(ScanInt(t).value.1);
    }
  }

  lemma SlashTokens(s: string, hs: nat, q: nat)
    requires '\0' !in s && hs <= q <= |s|
    ensures IsToken(Word(s[hs..q]).GetOr("")) && IsToken(Word(s[q..]).GetOr(""))
  {
    SliceNulFree(s, hs, q);
    SliceNulFree(s, q, |s|);
    WordIsToken(s[hs..q]);
    WordIsToken(s[q..]);
  }
}
