/**
 * The request line as `doit` reads it, in proxy.c and proxy1.c alike: `sscanf(buf, "%s %s %s",
 * method, uri, version)` followed by `strcasecmp(method, "GET")`.
 */
module Request {
  import opened Wrappers
  import opened CText

  /**
   * The method and the target `sscanf` stores from the line read into `buf`; a word the
   * conversion never reaches leaves its buffer as it was, which reads here as "".
   */
  function RequestLine(line: string): (r: (string, string))
    ensures IsToken(r.0) && IsToken(r.1)
    ensures r.0 == [] ==> r.1 == []
  {
    ScanWordParts(CString(line));
    match ScanWord(CString(line))
    case None => ("", "")
    case Some((verb, rest)) =>
      ScanWordParts(rest);
      match ScanWord(rest)
      case None => (verb, "")
      case Some((uri, _)) => (verb, uri)
  }

  /** `strcasecmp(method, "GET") == 0`. */
  predicate IsGet(verb: string) {
    EqualsIgnoreCase(verb, "GET")
  }

  /** Only the three letters of GET, in either case, make the verb acceptable. */
  lemma IsGetSpelling(verb: string)
    ensures IsGet(verb) <==>
      |verb| == 3 && Lower(verb[0]) == 'g' && Lower(verb[1]) == 'e' && Lower(verb[2]) == 't'
  {
  }

  /**
   * A request line `method SP target ...` (section 5.1 of RFC 1945) yields its method and its
   * target, whatever follows them.
   */
  lemma RequestLineOfWords(verb: string, uri: string, rest: string)
    requires IsToken(verb) && verb != [] && IsToken(uri) && uri != []
    requires '\0' !in rest && (rest == [] || IsSpace(rest[0]))
    ensures RequestLine(verb + " " + uri + rest) == (verb, uri)
  {
    var tail := " " + (uri + rest);
    var line := verb + tail;
    assert line == verb + " " + uri + rest;
    assert '\0' !in line;
    CStringOfNulFree(line);
    ScanWordOfSplit(verb, tail);
    SkipSpaceOfSpace(' ', uri + rest);
    assert tail == [' '] + (uri + rest);
    ScanWordOfSplit(uri, rest);
    assert uri[0] == (uri + rest)[0];
    SkipSpaceOfNonSpace(uri + rest);
  }

  /** A line with nothing but white space gives no verb, so it is never a GET. */
  lemma BlankLineIsNotGet(line: string)
    requires forall i :: 0 <= i < |line| ==> IsSpace(line[i])
    ensures RequestLine(line).0 == "" && !IsGet(RequestLine(line).0)
  {
    BlankScan(CString(line));
  }

  lemma {:induction false} BlankScan(s: string)
    requires forall i :: 0 <= i < |s| ==> IsSpace(s[i])
    ensures ScanWord(s) == None
  {
    if s != [] {
      assert forall i :: 0 <= i < |s| - 1 ==> IsSpace(s[1..][i]);
      BlankScan(s[1..]);
    }
  }
}
