/**
 * The parts of the C library the proxy relies on, over Dafny strings (one `char` per byte):
 * NUL-terminated strings, `strstr`, `strcasecmp`/`strncasecmp` in the "C" locale,
 * the `%s` and `%d` conversions of `sscanf`, and the `%d`/`%zu` conversions of `sprintf`.
 */
module CText {
  import opened Wrappers

  /** `isspace` in the "C" locale. */
  predicate IsSpace(c: char) {
    c == ' ' || c == '\t' || c == '\n' || c == '\r' || c == '\U{000B}' || c == '\U{000C}'
  }

  predicate IsDigit(c: char) {
    '0' <= c <= '9'
  }

  /** A string `sscanf`'s `%s` can produce: no white space and no NUL. */
  predicate IsToken(s: string) {
    forall i :: 0 <= i < |s| ==> !IsSpace(s[i]) && s[i] != '\0'
  }

  /** `tolower` in the "C" locale. */
  function Lower(c: char): char {
    if 'A' <= c <= 'Z' then (c as int + 32) as char else c
  }

  /** `strcasecmp(a, b) == 0` for NUL-free `a` and `b`. */
  predicate EqualsIgnoreCase(a: string, b: string) {
    |a| == |b| && forall i :: 0 <= i < |a| ==> Lower(a[i]) == Lower(b[i])
  }

  /**
   * `strncasecmp(s, key, strlen(key)) == 0` for NUL-free `s` and `key`: a string shorter
   * than `key` differs from it at its terminating NUL.
   */
  predicate StartsWithIgnoreCase(s: string, key: string) {
    |key| <= |s| && EqualsIgnoreCase(s[..|key|], key)
  }

  lemma FirstCharMismatch(s: string, key: string)
    requires key != [] && (s == [] || Lower(s[0]) != Lower(key[0]))
    ensures !StartsWithIgnoreCase(s, key)
  {
  }

  /** A string that starts with `key` itself starts with it in any case. */
  lemma StartsWithKey(key: string, rest: string)
    ensures StartsWithIgnoreCase(key + rest, key)
  {
    assert (key + rest)[..|key|] == key;
  }

  /** The C string held in buffer `a`: everything before its first NUL. */
  function CString(a: seq<char>): (r: string)
    ensures |r| <= |a| && r == a[..|r|]
    ensures '\0' !in r
    ensures |r| < |a| ==> a[|r|] == '\0'
  {
    if a == [] || a[0] == '\0' then [] else [a[0]] + CString(a[1..])
  }

  /** A NUL-free string is its own C string. */
  lemma {:induction false} CStringOfNulFree(s: seq<char>)
    requires '\0' !in s
    ensures CString(s) == s
  {
    if s != [] {
      CStringOfNulFree(s[1..]);
    }
  }

  /** The C string at offset `i` of a buffer is the tail of the buffer's C string. */
  lemma CStringSuffix(a: seq<char>, i: nat)
    requires i <= |CString(a)|
    ensures CString(a[i..]) == CString(a)[i..]
  {
    var s := CString(a);
    var b := a[i..];
    assert b[..|s| - i] == s[i..];
    assert '\0' !in s[i..];
    if |s| < |a| {
      assert b[|s| - i] == '\0';
      CStringOfNulFree(s[i..]);
      CStringOfPrefix(b, |s| - i);
    } else {
      assert b == s[i..];
      CStringOfNulFree(s[i..]);
    }
  }

  /** A buffer whose first NUL is at `n` holds the C string `a[..n]`. */
  lemma {:induction false} CStringOfPrefix(a: seq<char>, n: nat)
    requires n < |a| && a[n] == '\0' && '\0' !in a[..n]
    ensures CString(a) == a[..n]
  {
    if n > 0 {
      assert a[1..][..n - 1] == a[1..n];
      assert forall c :: c in a[1..n] ==> c in a[..n];
      CStringOfPrefix(a[1..], n - 1);
    }
  }

  /**
   * Writing a NUL at position `p` of a buffer's C string truncates it there: the C string at
   * any offset `i <= p` is the stretch from `i` up to `p`.
   */
  lemma CStringAfterTruncation(a: seq<char>, p: nat, i: nat)
    requires i <= p < |CString(a)|
    ensures CString(a[p := '\0'][i..]) == CString(a)[i..p]
  {
    var s := CString(a);
    var b := a[p := '\0'][i..];
    assert b[p - i] == '\0';
    assert b[..p - i] == s[i..p];
    assert '\0' !in s[i..p] by {
      forall c | c in s[i..p] ensures c != '\0' {
        assert c in s;
      }
    }
    CStringOfPrefix(b, p - i);
  }

  /** `s` holds `pat` at position `i`. */
  predicate OccursAt(s: string, pat: string, i: int) {
    0 <= i && i + |pat| <= |s| && s[i..i + |pat|] == pat
  }

  /** The first occurrence of `pat` in `s` at or after position `i`. */
  function FindFrom(s: string, pat: string, i: nat): (r: Option<nat>)
    ensures r.Some? ==> i <= r.value && r.value + |pat| <= |s|
    decreases |s| - i
  {
    if i + |pat| > |s| then None
    else if s[i..i + |pat|] == pat then Some(i)
    else FindFrom(s, pat, i + 1)
  }

  lemma {:induction false} FindFromFirst(s: string, pat: string, i: nat)
    ensures var r := FindFrom(s, pat, i);
      (r.Some? ==> OccursAt(s, pat, r.value) && forall j :: i <= j < r.value ==> !OccursAt(s, pat, j)) &&
      (r.None? ==> forall j :: i <= j ==> !OccursAt(s, pat, j))
    decreases |s| - i
  {
    if i + |pat| <= |s| && s[i..i + |pat|] != pat {
      FindFromFirst(s, pat, i + 1);
    }
  }

  /** `strstr(s, pat)`: the index of the first occurrence of `pat` in `s`, or None for NULL. */
  function Find(s: string, pat: string): (r: Option<nat>)
    ensures r.Some? ==> r.value + |pat| <= |s|
  {
    FindFrom(s, pat, 0)
  }

  /** `strstr` finds the first occurrence, and returns NULL only when there is none. */
  lemma FindSpec(s: string, pat: string)
    ensures var r := Find(s, pat);
      (r.Some? ==> OccursAt(s, pat, r.value) && forall j :: 0 <= j < r.value ==> !OccursAt(s, pat, j)) &&
      (r.None? ==> forall j :: 0 <= j ==> !OccursAt(s, pat, j))
  {
    FindFromFirst(s, pat, 0);
  }

  /** The first occurrence determines `strstr`'s answer. */
  lemma FindFirst(s: string, pat: string, i: nat)
    requires OccursAt(s, pat, i)
    requires forall j :: 0 <= j < i ==> !OccursAt(s, pat, j)
    ensures Find(s, pat) == Some(i)
  {
    FindSpec(s, pat);
  }

  /** For a one-character pattern, an occurrence is that character. */
  lemma OccursAtChar(s: string, c: char, i: int)
    ensures OccursAt(s, [c], i) <==> 0 <= i < |s| && s[i] == c
  {
    if 0 <= i < |s| {
      assert s[i..i + 1] == [s[i]];
    }
  }

  /** `strstr(s, [c])` is the first index holding `c`. */
  lemma FindChar(s: string, c: char)
    ensures Find(s, [c]).Some? ==> Find(s, [c]).value < |s| && s[Find(s, [c]).value] == c
    ensures Find(s, [c]).Some? ==> forall j :: 0 <= j < Find(s, [c]).value ==> s[j] != c
    ensures Find(s, [c]).None? <==> forall j :: 0 <= j < |s| ==> s[j] != c
  {
    FindSpec(s, [c]);
    forall j | 0 <= j {
      OccursAtChar(s, c, j);
    }
  }

  /** `s` with its leading white space skipped, as every `sscanf` conversion does first. */
  function SkipSpace(s: string): (r: string)
    ensures |r| <= |s|
    ensures r == [] || !IsSpace(r[0])
    ensures forall i :: 0 <= i < |s| - |r| ==> IsSpace(s[i])
  {
    if s != [] && IsSpace(s[0]) then SkipSpace(s[1..]) else s
  }

  /** The length of the longest prefix of `s` that holds no white space. */
  function WordLength(s: string): (n: nat)
    ensures n <= |s|
    ensures forall i :: 0 <= i < n ==> !IsSpace(s[i])
    ensures n < |s| ==> IsSpace(s[n])
  {
    if s != [] && !IsSpace(s[0]) then 1 + WordLength(s[1..]) else 0
  }

  /**
   * `sscanf`'s `%s` on the C string `s`: the word it stores and the text left after it, or
   * None when `s` holds only white space (the conversion fails and stores nothing).
   */
  function ScanWord(s: string): (r: Option<(string, string)>)
  {
    var t := SkipSpace(s);
    var n := WordLength(t);
    if n == 0 then None else Some((t[..n], t[n..]))
  }

  /** What `sscanf(s, "%s", buf)` stores in `buf`, if anything. */
  function Word(s: string): Option<string> {
    match ScanWord(s)
    case Some((w, _)) => Some(w)
    case None => None
  }

  /** A slice of a NUL-free string is NUL-free. */
  lemma SliceNulFree(s: string, i: nat, j: nat)
    requires '\0' !in s && i <= j <= |s|
    ensures '\0' !in s[i..j]
  {
    forall c | c in s[i..j] ensures c != '\0' {
      var k :| 0 <= k < j - i && s[i..j][k] == c;
      assert s[i + k] == c;
    }
  }

  /** What `%s` stores from a NUL-free string is a single word. */
  lemma WordIsToken(s: string)
    requires '\0' !in s
    ensures IsToken(Word(s).GetOr(""))
  {
    ScanWordParts(s);
  }

  /** What `%d` leaves unread of a NUL-free string is NUL-free. */
  lemma {:induction false} ScanIntRest(t: string)
    requires '\0' !in t
    ensures ScanInt(t).Some? ==> '\0' !in ScanInt(t).value.1
  {
    var s := SkipSpace(t);
    assert s == t[|t| - |s|..] by { SkipSpaceSuffix(t); }
    SliceNulFree(t, |t| - |s|, |t|);
    var u := if s != [] && (s[0] == '-' || s[0] == '+') then s[1..] else s;
    SliceNulFree(s, |s| - |u|, |s|);
    SliceNulFree(u, DigitRun(u), |u|);
  }

  /** On a token, `%s` reads the whole token. */
  lemma WordOfToken(s: string)
    requires IsToken(s)
    ensures Word(s) == if s == [] then None else Some(s)
    ensures s != [] ==> ScanWord(s) == Some((s, []))
  {
    WordLengthOfToken(s);
    assert SkipSpace(s) == s;
    if s != [] {
      assert s[..|s|] == s;
      assert s[|s|..] == [];
    }
  }

  lemma {:induction false} WordLengthOfToken(s: string)
    requires IsToken(s)
    ensures WordLength(s) == |s|
  {
    if s != [] {
      assert IsToken(s[1..]) by {
        forall i | 0 <= i < |s| - 1 ensures !IsSpace(s[1..][i]) && s[1..][i] != '\0' {
          assert s[1..][i] == s[i + 1];
        }
      }
      WordLengthOfToken(s[1..]);
    }
  }

  /** What is left after skipping white space is a suffix of the input. */
  lemma {:induction false} SkipSpaceSuffix(s: string)
    ensures SkipSpace(s) == s[|s| - |SkipSpace(s)|..]
  {
    if s != [] && IsSpace(s[0]) {
      SkipSpaceSuffix(s[1..]);
      assert s[1..][|s| - 1 - |SkipSpace(s)|..] == s[|s| - |SkipSpace(s)|..];
    }
  }

  /** White space before a word is skipped. */
  lemma SkipSpaceOfSpace(c: char, x: string)
    requires IsSpace(c)
    ensures SkipSpace([c] + x) == SkipSpace(x)
  {
    assert ([c] + x)[1..] == x;
  }

  /**
   * On a NUL-free string, `%s` stores a non-empty token and leaves text that is empty or
   * starts with white space.
   */
  lemma ScanWordParts(s: string)
    requires '\0' !in s
    ensures ScanWord(s).Some? ==>
      var (w, rest) := ScanWord(s).value;
      w != [] && IsToken(w) && '\0' !in rest && (rest == [] || IsSpace(rest[0]))
  {
    var t := SkipSpace(s);
    var n := WordLength(t);
    if n > 0 {
      var k := |s| - |t|;
      assert t == s[k..] by { SkipSpaceSuffix(s); }
      assert '\0' !in t by {
        forall c | c in t ensures c != '\0' {
          var i :| 0 <= i < |t| && t[i] == c;
          assert s[k + i] == c;
        }
      }
      var w, rest := t[..n], t[n..];
      assert IsToken(w) by {
        forall i | 0 <= i < |w| ensures !IsSpace(w[i]) && w[i] != '\0' {
          assert w[i] == t[i];
        }
      }
      assert '\0' !in rest by {
        forall c | c in rest ensures c != '\0' {
          var i :| 0 <= i < |rest| && rest[i] == c;
          assert t[n + i] == c;
        }
      }
      assert rest == [] || IsSpace(rest[0]) by {
        if rest != [] {
          assert rest[0] == t[n];
        }
      }
      assert ScanWord(s) == Some((w, rest));
    }
  }

  /** `%s` reads a token up to the white space that follows it. */
  lemma ScanWordOfSplit(w: string, rest: string)
    requires IsToken(w) && w != [] && (rest == [] || IsSpace(rest[0]))
    ensures ScanWord(w + rest) == Some((w, rest))
  {
    var s := w + rest;
    assert s[0] == w[0];
    SkipSpaceOfNonSpace(s);
    WordLengthOfSplit(w, rest);
    assert s[..|w|] == w && s[|w|..] == rest;
  }

  lemma {:induction false} WordLengthOfSplit(w: string, rest: string)
    requires IsToken(w) && (rest == [] || IsSpace(rest[0]))
    ensures WordLength(w + rest) == |w|
  {
    if w == [] {
      assert w + rest == rest;
    } else {
      assert (w + rest)[1..] == w[1..] + rest;
      assert IsToken(w[1..]) by {
        forall i | 0 <= i < |w| - 1 ensures !IsSpace(w[1..][i]) && w[1..][i] != '\0' {
          assert w[1..][i] == w[i + 1];
        }
      }
      WordLengthOfSplit(w[1..], rest);
    }
  }

  /** The length of the longest prefix of `s` made of decimal digits. */
  function DigitRun(s: string): (n: nat)
    ensures n <= |s|
    ensures forall i :: 0 <= i < n ==> IsDigit(s[i])
    ensures n < |s| ==> !IsDigit(s[n])
  {
    if s != [] && IsDigit(s[0]) then 1 + DigitRun(s[1..]) else 0
  }

  function DigitValue(c: char): nat {
    if IsDigit(c) then c as int - '0' as int else 0
  }

  /** The number a run of decimal digits denotes. */
  function DigitsValue(ds: string): nat {
    if ds == [] then 0 else DigitsValue(ds[..|ds| - 1]) * 10 + DigitValue(ds[|ds| - 1])
  }

  /**
   * `sscanf`'s `%d` on the C string `s`: after white space, an optional sign and at least one
   * digit; the value and the text after the digits, or None when no digit follows (the
   * conversion fails, stores nothing and ends the `sscanf`). `int` overflow is not modelled.
   */
  function ScanInt(s: string): (r: Option<(int, string)>)
  {
    var t := SkipSpace(s);
    if t != [] && t[0] == '-' then
      match ScanDigitRun(t[1..])
      case Some((v, rest)) => Some((-v, rest))
      case None => None
    else if t != [] && t[0] == '+' then ScanDigitRun(t[1..])
    else ScanDigitRun(t)
  }

  /** The unsigned part of `%d`: the value of the leading digit run and the text after it. */
  function ScanDigitRun(u: string): Option<(int, string)> {
    var n := DigitRun(u);
    if n == 0 then None else Some((DigitsValue(u[..n]) as int, u[n..]))
  }

  function DigitChar(d: nat): (c: char)
    requires d < 10
    ensures IsDigit(c) && DigitValue(c) == d
  {
    ('0' as int + d) as char
  }

  /** `sprintf("%zu", n)`. */
  function NatToDecimal(n: nat): (r: string)
    ensures r != []
    ensures forall i :: 0 <= i < |r| ==> IsDigit(r[i])
  {
    if n < 10 then [DigitChar(n)] else NatToDecimal(n / 10) + [DigitChar(n % 10)]
  }

  /** `sprintf("%d", i)`. */
  function IntToDecimal(i: int): string {
    if i < 0 then "-" + NatToDecimal(-i) else NatToDecimal(i)
  }

  /** Printing a number in decimal and reading the digits back gives the number. */
  lemma {:induction false} NatToDecimalValue(n: nat)
    ensures DigitsValue(NatToDecimal(n)) == n
  {
    if n >= 10 {
      var ds := NatToDecimal(n);
      assert ds[..|ds| - 1] == NatToDecimal(n / 10);
      NatToDecimalValue(n / 10);
    }
  }

  /** `%d` reads back exactly what `%d` printed, leaving the text after it. */
  lemma ScanIntOfDecimal(i: int, rest: string)
    requires rest == [] || !IsDigit(rest[0])
    ensures ScanInt(IntToDecimal(i) + rest) == Some((i, rest))
  {
    if i < 0 {
      ScanNegativeDecimal(i, rest);
    } else {
      ScanNonNegativeDecimal(i, rest);
    }
  }

  lemma {:induction false} ScanNegativeDecimal(i: int, rest: string)
    requires i < 0
    requires rest == [] || !IsDigit(rest[0])
    ensures ScanInt(IntToDecimal(i) + rest) == Some((i, rest))
  {
    var ds := NatToDecimal(-i);
    assert IntToDecimal(i) + rest == ['-'] + (ds + rest);
    assert DigitsValue(ds) == -i by {
      NatToDecimalValue(-i);
    }
    ScanMinusDigits(ds, rest);
  }

  lemma {:induction false} ScanMinusDigits(ds: string, rest: string)
    requires ds != [] && forall i :: 0 <= i < |ds| ==> IsDigit(ds[i])
    requires rest == [] || !IsDigit(rest[0])
    ensures ScanInt(['-'] + (ds + rest)) == Some((-(DigitsValue(ds) as int), rest))
  {
    ScanDigitRunOfDigits(ds, rest);
    ScanNegative(ds + rest, DigitsValue(ds) as int, rest);
  }

  lemma {:induction false} ScanNonNegativeDecimal(n: nat, rest: string)
    requires rest == [] || !IsDigit(rest[0])
    ensures ScanInt(IntToDecimal(n) + rest) == Some((n, rest))
  {
    var ds := NatToDecimal(n);
    var s := ds + rest;
    assert s[0] == ds[0];
    NatToDecimalValue(n);
    ScanDigitRunOfDigits(ds, rest);
    ScanUnsigned(s);
  }

  lemma DropHead(c: char, u: string)
    ensures ([c] + u)[0] == c && ([c] + u)[1..] == u
  {
  }

  /** A '-' and a digit run make a negative `%d` value. */
  lemma ScanNegative(x: string, v: int, rest: string)
    requires ScanDigitRun(x) == Some((v, rest))
    ensures ScanInt(['-'] + x) == Some((-v, rest))
  {
    DropHead('-', x);
    SkipSpaceOfNonSpace(['-'] + x);
  }

  /** Text that starts with a digit is read by `%d` as an unsigned digit run. */
  lemma ScanUnsigned(u: string)
    requires u != [] && IsDigit(u[0])
    ensures ScanInt(u) == ScanDigitRun(u)
  {
    SkipSpaceOfNonSpace(u);
  }

  /** Nothing is skipped before a character that is not white space. */
  lemma SkipSpaceOfNonSpace(s: string)
    requires s != [] && !IsSpace(s[0])
    ensures SkipSpace(s) == s
  {
  }

  /** The digit run of a printed number followed by a non-digit is the whole number. */
  lemma ScanDigitRunOfDigits(ds: string, rest: string)
    requires ds != [] && forall i :: 0 <= i < |ds| ==> IsDigit(ds[i])
    requires rest == [] || !IsDigit(rest[0])
    ensures ScanDigitRun(ds + rest) == Some((DigitsValue(ds) as int, rest))
  {
    DigitRunOfDigits(ds, rest);
    assert (ds + rest)[..|ds|] == ds;
    assert (ds + rest)[|ds|..] == rest;
  }

  lemma {:induction false} DigitRunOfDigits(ds: string, rest: string)
    requires forall i :: 0 <= i < |ds| ==> IsDigit(ds[i])
    requires rest == [] || !IsDigit(rest[0])
    ensures DigitRun(ds + rest) == |ds|
  {
    if ds != [] {
      assert (ds + rest)[1..] == ds[1..] + rest;
      DigitRunOfDigits(ds[1..], rest);
    } else {
      assert ds + rest == rest;
    }
  }

  /** A sequence of strings written one after another. */
  function Concat(ls: seq<string>): string {
    if ls == [] then [] else Concat(ls[..|ls| - 1]) + ls[|ls| - 1]
  }

  lemma {:induction false} ConcatAppend(ls: seq<string>, more: seq<string>)
    ensures Concat(ls + more) == Concat(ls) + Concat(more)
  {
    if more == [] {
      assert ls + more == ls;
    } else {
      assert (ls + more)[..|ls + more| - 1] == ls + more[..|more| - 1];
      ConcatAppend(ls, more[..|more| - 1]);
    }
  }

  lemma ConcatSnoc(ls: seq<string>, x: string)
    ensures Concat(ls + [x]) == Concat(ls) + x
  {
    assert (ls + [x])[..|ls|] == ls;
  }

  /** The total number of bytes in a sequence of strings. */
  function TotalLength(ls: seq<string>): nat {
    if ls == [] then 0 else TotalLength(ls[..|ls| - 1]) + |ls[|ls| - 1]|
  }

  lemma TotalLengthSnoc(ls: seq<string>, x: string)
    ensures TotalLength(ls + [x]) == TotalLength(ls) + |x|
  {
    assert (ls + [x])[..|ls|] == ls;
  }

  /** The bytes written are as many as the chunks' lengths add up to. */
  lemma {:induction false} ConcatLength(ls: seq<string>)
    ensures |Concat(ls)| == TotalLength(ls)
  {
    if ls != [] {
      ConcatLength(ls[..|ls| - 1]);
    }
  }

  /** With no empty chunk, some bytes are written exactly when some chunk is. */
  lemma {:induction false} TotalLengthPositive(ls: seq<string>)
    requires forall i :: 0 <= i < |ls| ==> ls[i] != []
    ensures TotalLength(ls) > 0 <==> ls != []
  {
    if ls != [] {
      TotalLengthPositive(ls[..|ls| - 1]);
    }
  }
}
