/**
 * `format_log_entry` of proxy.c: one line `"<time>: <host> <url> <size>\n"` appended to the
 * access log `proxy.log`. The time string (what `strftime` makes of the clock) and whether
 * `fopen` succeeds are inputs.
 */
module Log {
  import opened Wrappers
  import opened CText

  /** `sprintf(log_entry, "%s: %s %s %zu\n", time_str, browser_ip, url, size)`. */
  function LogEntry(time: string, host: string, url: string, size: nat): string {
    time + ": " + host + " " + url + " " + NatToDecimal(size) + "\n"
  }

  /** The index of the last `c` in `s`, if any. */
  function LastIndexOf(s: string, c: char): (r: Option<nat>)
    ensures r.Some? ==> r.value < |s| && s[r.value] == c
  {
    if s == [] then None
    else if s[|s| - 1] == c then Some(|s| - 1)
    else LastIndexOf(s[..|s| - 1], c)
  }

  /**
   * Reads a log line back, from its end: the size after the last space, then the url and
   * the host before it, each after a space, and the time before the ": " ahead of the host.
   */
  function ParseLogEntry(line: string): Option<(string, string, string, nat)> {
    if line == [] || line[|line| - 1] != '\n' then None
    else
      var body := line[..|line| - 1];
      match LastIndexOf(body, ' ')
      case None => None
      case Some(i) =>
        var digits := body[i + 1..];
        if digits == [] || exists d :: 0 <= d < |digits| && !IsDigit(digits[d]) then None
        else
          match ParseHead(body[..i])
          case None => None
          case Some((time, host, url)) => Some((time, host, url, DigitsValue(digits)))
  }

  /** `<time>: <host> <url>`, read from its end. */
  function ParseHead(before: string): Option<(string, string, string)> {
    match LastIndexOf(before, ' ')
    case None => None
    case Some(j) =>
      match ParseTimeHost(before[..j])
      case None => None
      case Some((time, host)) => Some((time, host, before[j + 1..]))
  }

  /** `<time>: <host>`, read from its end. */
  function ParseTimeHost(front: string): Option<(string, string)> {
    match LastIndexOf(front, ' ')
    case None => None
    case Some(k) =>
      if k == 0 || front[k - 1] != ':' then None
      else Some((front[..k - 1], front[k + 1..]))
  }

  /** The last `c` of `x + [c] + y`, when `y` holds none, is the one between them. */
  lemma {:induction false} LastIndexOfSplit(x: string, c: char, y: string)
    requires c !in y
    ensures LastIndexOf(x + [c] + y, c) == Some(|x|)
  {
    var s := x + [c] + y;
    if y == [] {
      assert s[|s| - 1] == c;
    } else {
      var init := y[..|y| - 1];
      assert s[..|s| - 1] == x + [c] + init;
      assert s[|s| - 1] == y[|y| - 1];
      LastIndexOfSplit(x, c, init);
    }
  }

  /** Cutting `x + [c] + y` at the position of `c`. */
  lemma SplitParts(x: string, c: char, y: string)
    ensures (x + [c] + y)[..|x|] == x && (x + [c] + y)[|x| + 1..] == y
  {
  }

  /**
   * A log line reads back as the time, host, url and size it was written from, whenever
   * the host and the url hold no space; any time string will do.
   */
  lemma {:induction false} LogEntryRoundTrip(time: string, host: string, url: string, size: nat)
    requires ' ' !in host && ' ' !in url
    ensures ParseLogEntry(LogEntry(time, host, url, size)) == Some((time, host, url, size))
  {
    var ds := NatToDecimal(size);
    var before := time + ": " + host + " " + url;
    var body := before + [' '] + ds;
    var line := LogEntry(time, host, url, size);
    assert line == body + "\n";
    assert line[..|line| - 1] == body;
    assert ' ' !in ds by {
      forall d | 0 <= d < |ds| ensures ds[d] != ' ' {
        assert IsDigit(ds[d]);
      }
    }
    LastIndexOfSplit(before, ' ', ds);
    SplitParts(before, ' ', ds);
    HeadRoundTrip(time, host, url);
    NatToDecimalValue(size);
  }

  lemma {:induction false} HeadRoundTrip(time: string, host: string, url: string)
    requires ' ' !in host && ' ' !in url
    ensures ParseHead(time + ": " + host + " " + url) == Some((time, host, url))
  {
    var front := time + ": " + host;
    assert time + ": " + host + " " + url == front + [' '] + url;
    LastIndexOfSplit(front, ' ', url);
    SplitParts(front, ' ', url);
    TimeHostRoundTrip(time, host);
  }

  lemma {:induction false} TimeHostRoundTrip(time: string, host: string)
    requires ' ' !in host
    ensures ParseTimeHost(time + ": " + host) == Some((time, host))
  {
    var stamp := time + [':'];
    var front := stamp + [' '] + host;
    assert time + ": " + host == front;
    LastIndexOfSplit(stamp, ' ', host);
    SplitParts(stamp, ' ', host);
    assert front[|time|] == stamp[|time|] == ':';
    assert front[..|time|] == stamp[..|time|] == time;
  }

  /** The access log: the lines `proxy.log` holds, oldest first. */
  class AccessLog {
    var entries: seq<string>

    constructor ()
      ensures entries == []
    {
      entries := [];
    }

    /**
     * Formats the entry and appends it when the log file opens; when it does not, the entry
     * is dropped without a trace.
     */
    method FormatLogEntry(time: string, host: string, url: string, size: nat, opens: bool)
      modifies this
      ensures entries == old(entries) + (if opens then [LogEntry(time, host, url, size)] else [])
    {
      var logEntry := LogEntry(time, host, url, size);
      if opens {
        entries := entries + [logEntry];
      }
    }
  }
}
