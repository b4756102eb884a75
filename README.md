# A verified model of a small HTTP forwarding proxy

The proxy accepts a client connection and reads the request line. It accepts only the GET
method. It splits the absolute-form target into hostname, port and path, rewrites the
client's header block into an HTTP/1.0 request and connects to the origin server. Then it
sends the request, relays the response back to the client chunk by chunk and, in the
complete version, appends a line to the access log `proxy.log`. There are two versions:
`proxy.c` is the complete one and `proxy1.c` an earlier draft.

The model is imperative where the C code is:
- `parse_uri` works on an `array<char>`, writing the `'\0'` into the caller's buffer.
- `build_http_header` and the relay loops are `while` loops over a `Rio.Connection` object.
- `doit` is a method that changes the client and server connections and the access log.

Each method is proved against a specification function:
- `UriParser.Parse` for `parse_uri`;
- `Headers.BuiltHeader` for `build_http_header`;
- `Proxy.Transaction` and `Proxy1.Transaction1` for the two versions of `doit`.

The lemmas are proved about those functions.

Modules:
- `Wrappers`: the `Option` type.
- `CText`: the C library calls the code uses, on `seq<char>`:
  - NUL-terminated reading;
  - `strstr`, `strncasecmp` and `strcasecmp`;
  - `sscanf` with `%s` and `%d`;
  - `sprintf` with `%d` and `%zu`.
- `Rio`: a connection. It has the line reads it will deliver, the count of reads made and the writes made to it.
- `Request`: the request line (`sscanf("%s %s %s")` and the GET test).
- `UriParser`: `parse_uri`. The code is identical in both files.
- `Headers`: the header constants and `build_http_header`, with the passthrough test as a parameter.
- `Log`: `format_log_entry` and the access log.
- `Proxy`: `doit` and `connect_endServer` of `proxy.c`.
- `Proxy1`: `doit` and the passthrough test of `proxy1.c`.

Inputs the model takes as parameters:
- the client's line reads and the server's response chunks: the `incoming` of each `Connection`;
- whether `connect_endServer` succeeds: `connected`;
- the time string `strftime` produces: `now`;
- whether `fopen("proxy.log", "a")` succeeds: `logOpens`.

A C buffer that no call stores into reads as the empty string. `parse_uri`'s hostname and path results are `Option`s, with `None` for an untouched buffer.

Where the documentation of the system and the code disagree, the model follows the code:
- `proxy.c` logs the origin hostname parsed from the target, not the client address (proxy.c:139).
- The url logged is the `uri` buffer as `parse_uri` left it. When the colon branch takes the target, that buffer is cut at the `':'`, so the port and path are missing from the log (proxy.c:190, proxy.c:139).
- No path is supplied when the target has none. The request line then reads `GET  HTTP/1.0`.
- `proxy.c`'s passthrough test requires a line to start with all three of Connection, Proxy-Connection and User-Agent. No line can, so no client header but the Host line ever reaches the server (proxy.c:159-161).

## Model

| member | source | states |
|---|---|---|
| CText.CString | proxy.c:190-191 | the C string a buffer holds is its prefix before the first NUL, itself NUL-free, ending at a NUL or at the buffer's end |
| CText.CStringOfNulFree | proxy.c:118 | a buffer without NUL is read whole (`strlen` of the header is its length) |
| CText.CStringSuffix | proxy.c:191 | reading from an offset inside the string gives the string's suffix from that offset |
| CText.CStringOfPrefix | proxy.c:190 | a NUL at index n with none before it ends the C string at n |
| CText.CStringAfterTruncation | proxy.c:190-191 | after writing NUL at p, the string read from i is exactly the text between i and p |
| CText.FindFrom | proxy.c:183 | a match found searching from i lies at or after i and within the string |
| CText.FindFromFirst | proxy.c:183 | the search from i returns the first occurrence at or after i, and none means there is none |
| CText.Find | proxy.c:183 | a match `strstr` returns lies within the string |
| CText.FindSpec | proxy.c:183 | `strstr` returns the first occurrence of the pattern, or none iff the pattern never occurs |
| CText.FindFirst | proxy.c:183-185 | an occurrence with none earlier is what `strstr` returns |
| CText.OccursAtChar | proxy.c:187 | a one-character pattern occurs at i iff that character is at index i |
| CText.FindChar | proxy.c:187 | `strstr(s, ":")` returns the index of the first ':', and none iff the string has no ':' |
| CText.SkipSpace | proxy.c:191 | `sscanf` skips exactly the leading white space, leaving a suffix that starts with a non-space |
| CText.WordLength | proxy.c:191 | `%s` reads the maximal run of non-space characters |
| CText.FirstCharMismatch | proxy.c:159-160 | a string whose first letter differs (ignoring case) from a key's does not start with the key |
| CText.StartsWithKey | proxy.c:153 | a key followed by anything starts with the key, ignoring case |
| CText.WordIsToken | proxy.c:191 | the word `%s` stores holds neither white space nor NUL |
| CText.ScanIntRest | proxy.c:192 | what `%d` leaves unread of a NUL-free string is NUL-free |
| CText.WordOfToken | proxy.c:191 | `%s` on a non-empty word stores that word whole; on an empty string it stores nothing |
| CText.WordLengthOfToken | proxy.c:191 | a word with no white space is read to its end |
| CText.SkipSpaceSuffix | proxy.c:93 | skipping white space removes a prefix and nothing else |
| CText.SkipSpaceOfSpace | proxy.c:93 | a leading white-space character is skipped |
| CText.ScanWordParts | proxy.c:93 | the word `%s` reads is non-empty and free of white space and NUL, and the rest follows it in the input |
| CText.ScanWordOfSplit | proxy.c:93 | `%s` on a word followed by white space or the end reads that word and leaves the rest |
| CText.WordLengthOfSplit | proxy.c:93 | the word's length is exactly up to the following white space |
| CText.DigitRun | proxy.c:192 | `%d` reads the maximal run of leading digits |
| CText.DigitChar | proxy.c:176 | each digit printed is a decimal digit of the right value |
| CText.NatToDecimal | proxy.c:220 | `%zu` prints a non-empty run of decimal digits |
| CText.NatToDecimalValue | proxy.c:220 | the digits printed read back as the number printed |
| CText.ScanIntOfDecimal | proxy.c:176 | a port printed with `%d` is read back by `%d` as the same integer, negative or not, leaving what follows |
| CText.ScanNegativeDecimal | proxy.c:176 | a negative number printed with `%d` reads back as itself |
| CText.ScanMinusDigits | proxy.c:192 | `%d` on a minus sign and digits gives the negated digit value |
| CText.ScanNonNegativeDecimal | proxy.c:176 | a non-negative number printed with `%d` reads back as itself |
| CText.ScanNegative | proxy.c:192 | `%d` accepts a leading minus sign and negates the number after it |
| CText.ScanUnsigned | proxy.c:192 | on a leading digit `%d` reads the digit run |
| CText.SkipSpaceOfNonSpace | proxy.c:192 | nothing is skipped before a non-space character |
| CText.ScanDigitRunOfDigits | proxy.c:192 | a digit run followed by a non-digit reads as its value and leaves the rest |
| CText.DigitRunOfDigits | proxy.c:192 | the digit run ends at the first non-digit |
| CText.ConcatAppend | proxy.c:162 | appending to `other_hdr` in two stretches gives the two parts in order |
| CText.ConcatSnoc | proxy.c:162 | one `strcat` adds its line at the end |
| CText.TotalLengthSnoc | proxy.c:131 | the byte count grows by the length of each chunk |
| CText.ConcatLength | proxy.c:130-131 | the bytes relayed number exactly the byte count |
| CText.TotalLengthPositive | proxy.c:137 | with non-empty chunks the byte count is positive iff at least one chunk came |
| Rio.Connection.constructor | proxy.c:89 | a fresh reader has made no read and no write |
| Rio.Connection.ReadLine | proxy.c:243-251 | a read returns the next line and advances, or returns 0 (the empty string) at end of input or on error and stays put |
| Rio.Connection.Write | proxy.c:253-260 | a write appends its data to what the connection has received |
| Request.RequestLine | proxy.c:93 | method and target are words without white space or NUL, and there is no target without a method |
| Request.IsGetSpelling | proxy.c:96 | the method is accepted iff it is G, E, T in any case |
| Request.RequestLineOfWords | proxy.c:93 | a line `method SP target …` yields that method and that target, whatever follows |
| Request.BlankLineIsNotGet | proxy1.c:70-78 | an empty or all-white-space line gives no method and so is rejected as non-GET |
| Request.BlankScan | proxy.c:93 | `%s` on white space alone stores nothing |
| UriParser.HostStart | proxy.c:183-185 | the host start lies within the string |
| UriParser.ParseUri | proxy.c:180-205 | the three out-parameters and the new buffer contents are exactly `Parse` of the old buffer (port 80 first; a ':' cut stays in the buffer, a '/' cut is undone) |
| UriParser.ColonCutOfCut | proxy.c:190-192 | the colon branch reads the host from the truncated buffer and port and path from after the ':' |
| UriParser.SlashCutOfCut | proxy.c:197-200 | cutting at '/' and restoring it gives the buffer back byte for byte; the host is read before the '/', the path from it |
| UriParser.ParseColonCase | proxy.c:187-188 | a ':' index from `strstr` lies at the first ':' after the host start |
| UriParser.ColonCase | proxy.c:187-192 | when `strstr` finds a ':' after the host start the colon branch is the outcome |
| UriParser.FoundAt | proxy.c:187 | the index `strstr` returns holds the character searched for |
| UriParser.ParseSlashCase | proxy.c:195-196 | a '/' index from `strstr` lies at the first '/' after the host start |
| UriParser.SlashCase | proxy.c:195-200 | with no ':' and a '/' after the host start the slash branch is the outcome |
| UriParser.ParseHostCase | proxy.c:201-202 | with neither ':' nor '/' the host is read from the host start, port 80 and no path |
| UriParser.HostStartAfterFirstSeparator | proxy.c:183-185 | the host starts at 0 iff the target has no "//", and otherwise just after the first "//" |
| UriParser.FirstAfter | proxy.c:187 | the first occurrence of a character after the host start is what `strstr` finds there |
| UriParser.NoneAfter | proxy.c:195 | with no occurrence after the host start `strstr` finds nothing |
| UriParser.TokenSlice | proxy.c:191 | any slice of a word is a word |
| UriParser.ParseAtColon | proxy.c:187-192 | the first ':' after the host start, even one after a '/', selects the colon branch |
| UriParser.ParseAtSlash | proxy.c:195-200 | with no ':' after the host start, the first '/' after it selects the slash branch |
| UriParser.ParseHostOnly | proxy.c:202 | with neither ':' nor '/' the hostname is the word from the host start, the port stays 80 and the path is unset |
| UriParser.ColonCutHost | proxy.c:191 | the hostname is the text between the host start and the ':', unset when that text is empty |
| UriParser.ColonCutTruncates | proxy.c:190 | the colon branch leaves the buffer with a NUL at the ':', so it reads as the text before the ':' |
| UriParser.ColonBranch | proxy.c:187-190 | on a word target the colon branch leaves `uri` truncated at the first ':' after the host start |
| UriParser.ScanDigits | proxy.c:192 | after the ':', `%d%s` reads the digit prefix as the port and the rest, if any, as the path |
| UriParser.ScanNoNumber | proxy.c:192 | with no number after the ':' the port keeps its value and the path is unset |
| UriParser.ColonWithoutNumber | proxy.c:182-192 | a ':' not followed by a number leaves the port at 80 and the path unset |
| UriParser.SlashBranch | proxy.c:195-200 | the slash branch gives the text before the first '/' as hostname, port 80, the text from the '/' to the end as path, and the buffer unchanged |
| UriParser.HostOnly | proxy.c:202 | without ':' or '/' the hostname is the whole remainder, port 80, path unset, buffer unchanged |
| UriParser.OccursAtHead | proxy.c:183 | an occurrence starts with the pattern's first character |
| UriParser.HostStartOfAbsoluteForm | proxy.c:183-185 | for `scheme//rest` with no '/' in the scheme the host starts right after the "//" |
| UriParser.AbsoluteFormWithPort | proxy.c:180-192 | `scheme//host:port/path` parses to that host, that port and that path, and leaves `scheme//host` as the C string in `uri` |
| UriParser.AbsoluteFormParse | proxy.c:187-192 | for `scheme//host:digits path` the host is read before the ':' and port and path by `%d%s` after it, with `uri` cut to `scheme//host` |
| UriParser.ColonParseOf | proxy.c:187-192 | the colon branch expressed by the host text and the text after the ':' |
| UriParser.FirstColonAfterHost | proxy.c:187 | in `host:…` with no ':' in the host the first ':' ends the host |
| UriParser.ColonCutOf | proxy.c:190-192 | the colon cut in terms of the host text and the text after the ':' |
| UriParser.AbsoluteFormLayout | proxy.c:183-187 | in `scheme//host:…` the host starts after "//" and the first ':' after it ends the host |
| UriParser.LayoutNulFree | proxy.c:183 | a target built from words holds no NUL |
| UriParser.LayoutHost | proxy.c:187 | the text between host start and ':' is the host |
| UriParser.LayoutSlices | proxy.c:191-192 | the slices of `scheme//host:digits path` are its parts |
| UriParser.TokensConcat | proxy.c:93 | two words laid end to end form a word |
| UriParser.AbsoluteFormWithoutPort | proxy.c:195-200 | `scheme//host/path` without ':' parses to that host, port 80 and that path, and the buffer is left intact |
| UriParser.BareHost | proxy.c:202 | a bare host name parses to itself with port 80 and no path |
| UriParser.ParseTokens | proxy.c:191-202 | whatever the target, the hostname and path stored are words without white space or NUL |
| UriParser.ColonTokens | proxy.c:191-192 | the colon branch stores words |
| UriParser.SlashTokens | proxy.c:198-200 | the slash branch stores words |
| Headers.BlockLength | proxy.c:149-150 | the block is the reads before the first line equal to "\r\n"; none of them is that line, and the read after them is, if it came |
| Headers.BuildHttpHeader | proxy.c:143-171 | the header returned is `BuiltHeader` of the reads still to come, and exactly `Consumed` of them are read: the block and its "\r\n" line, no read after it |
| Headers.BlockStep | proxy.c:149-163 | one more line of the block: a Host line replaces `host_hdr`, any other line that passes the test is appended to `other_hdr` |
| Headers.HttpHeaderFields | proxy.c:170 | the header is request line, Host, Connection, Proxy-Connection, User-Agent, the passthrough lines in order, and "\r\n", in that order |
| Headers.BlockIgnoresLaterReads | proxy.c:149-150 | once the "\r\n" line has come, later reads change neither the block nor the number of reads made |
| Headers.BuiltHeaderIgnoresLaterReads | proxy.c:149-150 | the header does not depend on anything the client sends after the "\r\n" line |
| Headers.HostLineNotEmpty | proxy.c:153 | a Host line is at least as long as "Host", so it is never mistaken for a missing one |
| Headers.LastHostIsLast | proxy.c:153-156 | `host_hdr` is empty iff the block has no Host line, and otherwise holds the last Host line of the block |
| Headers.KeptAppend | proxy.c:159-162 | the passthrough lines of two stretches of reads follow one another in order |
| Headers.KeptMembers | proxy.c:153-162 | a line is passed through iff some read of the block holds it, is not a Host line and passes the test |
| Headers.KeptPass | proxy.c:153-162 | every line passed through passes the test and is not a Host line |
| Headers.KeptNothing | proxy.c:159-162 | a test that rejects every line leaves `other_hdr` empty |
| Headers.CountSnoc | proxy.c:170 | counting the fields that start with a key, field by field |
| Headers.CountAppend | proxy.c:170 | the count over two stretches of fields is the sum of the counts |
| Headers.CountNone | proxy.c:170 | fields that do not start with the key count nothing |
| Headers.FieldsCount | proxy.c:170 | the count over the header is the count over its fixed fields plus the passthrough lines |
| Headers.HostHeaderIsHost | proxy.c:153-168 | the Host field starts with "Host", whether copied from the client or made from the hostname |
| Headers.HostIsNoOtherKey | proxy.c:159-160 | a Host line starts with neither Connection nor Proxy-Connection |
| Headers.RequestHdrKeys | proxy.c:146 | the request line is none of the four fields |
| Headers.ConnHdrKeys | proxy.c:6 | `Connection: close` is a Connection field and none of the other three |
| Headers.ProxHdrKeys | proxy.c:7 | `Proxy-Connection: close` is a Proxy-Connection field and none of the other three |
| Headers.UserAgentHdrKeys | proxy.c:5 | the fixed User-Agent line is a User-Agent field and none of the other three |
| Headers.EndOfHdrKeys | proxy.c:10 | the closing "\r\n" is none of the four fields |
| Headers.ExactlyOneOfEach | proxy.c:159-170 | with a test that rejects the three keys, the header has exactly one Host, Connection, Proxy-Connection and User-Agent field |
| Headers.FixedPartsNulFree | proxy.c:5-10 | the fixed header parts hold no NUL |
| Headers.RequestHdrNulFree | proxy.c:146 | the request line of a NUL-free path holds no NUL |
| Headers.UserAgentHdrNulFree | proxy.c:5 | the User-Agent line holds no NUL |
| Headers.HeaderNulFree | proxy.c:170 | a header assembled from NUL-free parts is NUL-free |
| Headers.ConcatNulFree | proxy.c:162 | appended NUL-free lines stay NUL-free |
| Headers.KeptNulFree | proxy.c:162 | the lines passed through hold no NUL |
| Headers.LastHostNulFree | proxy.c:154 | the copied Host line holds no NUL |
| Headers.HostHdrNulFree | proxy.c:167 | the Host field made from a NUL-free hostname holds no NUL |
| Headers.BuiltHeaderNulFree | proxy.c:146-170 | the header holds no NUL, so `strlen` sends all of it |
| Headers.RequestLineOfHeader | proxy.c:146-170 | the header sent reads back as a request line `GET path` |
| Log.LastIndexOf | proxy.c:220 | a found index lies in the line and holds the character searched for |
| Log.LastIndexOfSplit | proxy.c:220 | the last separator of `x c y`, when y has none, is between x and y |
| Log.LogEntryRoundTrip | proxy.c:220 | a log line reads back as the time, host, url and size it was written from, for a host and url without spaces and any time string |
| Log.HeadRoundTrip | proxy.c:220 | `time: host url` reads back as its three parts |
| Log.TimeHostRoundTrip | proxy.c:220 | `time: host` reads back as its two parts |
| Log.AccessLog.constructor | proxy.c:224 | the log starts empty |
| Log.AccessLog.FormatLogEntry | proxy.c:207-230 | the formatted line is appended when the log file opens, and the log is unchanged otherwise |
| Proxy.ServiceIsPort | proxy.c:173-178 | the service string names the hostname given and reads back as the same port |
| Proxy.KeepAsWrittenNever | proxy.c:159-161 | no line passes proxy.c's passthrough test |
| Proxy.PassthroughAlwaysEmpty | proxy.c:159-170 | proxy.c's header is the fixed fields with the Host field and an empty passthrough block, whatever the client sends |
| Proxy.Relay | proxy.c:120-132 | every server chunk is written to the client unchanged, in order, until a read returns 0, and the count returned is the sum of their lengths |
| Proxy.Doit | proxy.c:81-141 | reads, connect request, writes to both sides and log lines are exactly those `Transaction` describes |
| Proxy.Forward | proxy.c:105-140 | after parsing: reads, writes and log lines are exactly those `Forwarding` describes |
| Proxy.NoRequestNoAction | proxy.c:90-91 | a first read returning 0 (end of file or error) ends the transaction with no other action |
| Proxy.NonGetAborts | proxy.c:93-99 | any method but GET ends the transaction after the request line, with no connect, write or log line |
| Proxy.ConnectFailureAborts | proxy.c:105-112 | a failed connect comes after the header block is read and writes nothing to either side and logs nothing |
| Proxy.ConnectedRelaysVerbatim | proxy.c:105-132 | once connected, the server gets one write, the header with no passthrough line, and the client gets the server's chunks unchanged |
| Proxy.LoggedIffBytes | proxy.c:137-140 | a line is logged iff the server sent a byte and the log opens, naming the parsed hostname, the `uri` buffer as `parse_uri` left it, and the byte count |
| Proxy.AbsoluteRequest | proxy.c:81-141 | `GET scheme//host:port/path` connects to host at port, sends a request line `GET path`, and logs `scheme//host` as the url |
| Proxy.AbsoluteFormTokens | proxy.c:93 | an absolute-form target made of words is one word |
| Proxy.DecimalIsToken | proxy.c:176 | a printed port is a word |
| Proxy1.PassthroughExactly | proxy1.c:110-119 | the passthrough lines are exactly the block lines that are not Host lines and do not start with Connection, Proxy-Connection or User-Agent |
| Proxy1.OneOfEachField | proxy1.c:110-133 | the draft's header has exactly one Host, Connection, Proxy-Connection and User-Agent field |
| Proxy1.HeaderLayout | proxy1.c:102-133 | the header is request line, Host field, the fixed fields, the passthrough lines and "\r\n", in that order |
| Proxy1.Doit1 | proxy1.c:58-97 | reads, connect request and writes to both sides are exactly those `Transaction1` describes |
| Proxy1.Forward1 | proxy1.c:81-95 | after parsing: reads and writes are exactly those `Forwarding1` describes |
| Proxy1.Relay1 | proxy1.c:91-95 | every server chunk is written to the client unchanged, in order, until a read returns 0 |
| Proxy1.NoRequestNoAction1 | proxy1.c:70-78 | a first read returning 0 leaves the line buffer empty, so the request is dropped with no action |
| Proxy1.NonGetAborts1 | proxy1.c:73-78 | any method but GET ends the transaction after the request line |
| Proxy1.ConnectedRelaysVerbatim1 | proxy1.c:81-95 | once connected, the server gets the rewritten header and the client gets the server's chunks unchanged, and nothing is logged |
| Proxy1.ConnectFailureAborts1 | proxy1.c:81-86 | a failed connect writes nothing to either side |

## Left out

- `main`, `thread` and the accept loop, `Pthread_*`, the log mutex, `signal(SIGPIPE)` and the `printf`/`fprintf` diagnostics: process plumbing, concurrency and console output.
- `Open_listenfd`, `Accept`, `Getnameinfo`, `Close` and the internals of `rio_readlineb`/`rio_writen`. A connection is the sequence of line reads it delivers. A read returning 0 is the end of that sequence, whether it came from end of file or from an error, which `Rio_readlineb_w` maps to 0.
- `Open_clientfd`: the outcome of `connect_endServer` is the input `connected`. The model keeps the endpoint it asks for: the hostname and the port printed with `%d`.
- `time`, `localtime`, `strftime`: the time string is the parameter `now`. `fopen`/`fputs`/`fclose`: the log is a sequence of lines, and whether the file opens is the input `logOpens`.
- Proxy.Relay: the `n < 0` test on the `size_t` count can never hold, so it is not modelled, and a read error ends the loop like end of file.
- `Rio_writen_w` errors are reported and otherwise ignored by the callers. A write always delivers its data.
- `MAXLINE` buffers: line truncation by `rio_readlineb`, and overflow of `other_hdr`, `http_header` and `log_entry` by `strcat`/`sprintf`, are not modelled. Strings are unbounded.
- `size_t` and `int` widths: `total_size` is a `nat` (no wrap-around), and a port read by `%d` is an unbounded `int` (no overflow). A sign accepted by `%d` is modelled: the port may be negative.
- `parse_uri`: the out-parameters for hostname and path are `Option`s. An uninitialised `host_hdr` and `other_hdr` read as empty, and an uninitialised request-line buffer in the draft reads as empty too.
- Proxy1.HeaderLayout: proxy1.c:128 lacks the comma after `host_hdr`, which makes that `sprintf` call ill-formed. The model uses the evident intended order, the order proxy.c writes.
- proxy1.c's csapp `Rio_readlineb` terminates the process on a read error. That path is not modelled, and reads end only at end of input.
- `MAX_CACHE_SIZE` and `MAX_OBJECT_SIZE` (proxy1.c:5-6) are never used.
- `doit` in the model is split into `Doit` and `Forward` (and `Doit1`/`Forward1`), and its relay loop into `Relay` (`Relay1`). Together they are one C function.
