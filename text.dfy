/** Character classes and the string helpers of Python's `str` that the handler relies on. */
module Text {
  import opened Wrappers

  /** Python's `str.isspace()`, which is also the set of characters `\s` matches in a str
      pattern: the ASCII separators and the remaining Unicode white-space characters. */
  predicate IsSpace(c: char) {
    || c == ' ' || ('\t' <= c <= '\r') || ('\U{1c}' <= c <= '\U{1f}')
    || c == '\U{85}' || c == '\U{a0}' || c == '\U{1680}' || ('\U{2000}' <= c <= '\U{200a}')
    || c == '\U{2028}' || c == '\U{2029}' || c == '\U{202f}' || c == '\U{205f}' || c == '\U{3000}'
  }

  /** Python's `str.isalnum()`, restricted to ASCII letters and digits. */
  predicate IsAlnum(c: char) {
    ('a' <= c <= 'z') || ('A' <= c <= 'Z') || ('0' <= c <= '9')
  }

  /** What `\w` matches in a str pattern: an alphanumeric character or the underscore. */
  predicate IsWordChar(c: char) {
    IsAlnum(c) || c == '_'
  }

  predicate IsDigit(c: char) {
    '0' <= c <= '9'
  }

  predicate AllDigits(s: string) {
    forall k :: 0 <= k < |s| ==> IsDigit(s[k])
  }

  /** `s.lstrip()`: drops the leading white space, and only that. */
  function TrimStart(s: string): (r: string)
    ensures |r| <= |s| && r == s[|s| - |r|..]
    ensures forall k :: 0 <= k < |s| - |r| ==> IsSpace(s[k])
    ensures r == [] || !IsSpace(r[0])
  {
    if s != [] && IsSpace(s[0]) then
      var r := TrimStart(s[1..]);
      assert forall k :: 1 <= k < |s| - |r| ==> s[k] == s[1..][k - 1];
      r
    else s
  }

  /** `s.rstrip()`: drops the trailing white space, and only that. */
  function TrimEnd(s: string): (r: string)
    ensures |r| <= |s| && r == s[..|r|]
    ensures forall k :: |r| <= k < |s| ==> IsSpace(s[k])
    ensures r == [] || !IsSpace(r[|r| - 1])
  {
    if s != [] && IsSpace(s[|s| - 1]) then TrimEnd(s[..|s| - 1]) else s
  }

  /** `s.strip()` */
  function Strip(s: string): string {
    TrimEnd(TrimStart(s))
  }

  /** A string that starts and ends with a non-space character is its own strip. */
  lemma StripUnchanged(s: string)
    requires s == [] || (!IsSpace(s[0]) && !IsSpace(s[|s| - 1]))
    ensures Strip(s) == s
  {
  }

  /** Index of the first occurrence of c in s, or |s| when there is none. */
  function IndexOf(s: string, c: char): (n: nat)
    ensures n <= |s|
    ensures forall k :: 0 <= k < n ==> s[k] != c
    ensures n < |s| ==> s[n] == c
  {
    if s == [] || s[0] == c then 0 else 1 + IndexOf(s[1..], c)
  }

  /** `sep.join(parts)` for a one-character separator. */
  function Join(parts: seq<string>, sep: char): string {
    if |parts| == 0 then ""
    else if |parts| == 1 then parts[0]
    else parts[0] + [sep] + Join(parts[1..], sep)
  }

  /** `s.split(sep)` for a one-character separator: always at least one piece. */
  function Split(s: string, sep: char): (r: seq<string>)
    ensures |r| >= 1
    ensures forall k :: 0 <= k < |r| ==> sep !in r[k]
    decreases |s|
  {
    var n := IndexOf(s, sep);
    if n == |s| then [s] else [s[..n]] + Split(s[n + 1..], sep)
  }

  /** An occurrence at k bounds the first occurrence. */
  lemma IndexOfAtMost(s: string, c: char, k: nat)
    requires k < |s| && s[k] == c
    ensures IndexOf(s, c) <= k
  {
  }

  /** The first separator of a + b lies in a when a has one, and otherwise after all of a. */
  lemma {:induction false} IndexOfConcat(a: string, b: string, c: char)
    ensures IndexOf(a + b, c) == if IndexOf(a, c) < |a| then IndexOf(a, c) else |a| + IndexOf(b, c)
    decreases |a|
  {
    if a != [] && a[0] != c {
      assert (a + b)[1..] == a[1..] + b;
      IndexOfConcat(a[1..], b, c);
    } else if a == [] {
      assert a + b == b;
    }
  }

  /** Splitting a join recovers the parts, provided no part contains the separator. */
  lemma {:induction false} SplitJoin(parts: seq<string>, sep: char)
    requires |parts| >= 1
    requires forall k :: 0 <= k < |parts| ==> sep !in parts[k]
    ensures Split(Join(parts, sep), sep) == parts
    decreases |parts|
  {
    var s := Join(parts, sep);
    if |parts| == 1 {
      assert IndexOf(s, sep) == |s|;
    } else {
      var rest := Join(parts[1..], sep);
      assert s == parts[0] + ([sep] + rest);
      IndexOfConcat(parts[0], [sep] + rest, sep);
      assert IndexOf(parts[0], sep) == |parts[0]|;
      var n := IndexOf(s, sep);
      assert n == |parts[0]|;
      assert s[..n] == parts[0];
      assert s[n + 1..] == rest;
      SplitJoin(parts[1..], sep);
    }
  }

  /** The lines of a text: each piece up to a newline, without it; a final piece without
      a newline is a line too. */
  function Lines(s: string): seq<string>
    decreases |s|
  {
    if s == [] then []
    else
      var n := IndexOf(s, '\n');
      if n == |s| then [s] else [s[..n]] + Lines(s[n + 1..])
  }

  /** Empty, or ending in a newline. */
  predicate LineTerminated(s: string) {
    s == [] || s[|s| - 1] == '\n'
  }

  /** A single newline-terminated line is one line. */
  lemma LinesOfLine(line: string)
    requires '\n' !in line
    ensures Lines(line + "\n") == [line]
  {
    var t := line + "\n";
    IndexOfConcat(line, "\n", '\n');
    assert IndexOf(t, '\n') == |line|;
    assert t[..|line|] == line;
    assert t[|line| + 1..] == [];
  }

  /** The first line of a text is unaffected by what follows a newline. */
  lemma LinesSplitFirst(log: string, tail: string)
    requires IndexOf(log, '\n') < |log|
    ensures var n := IndexOf(log, '\n');
      Lines(log) == [log[..n]] + Lines(log[n + 1..]) &&
      Lines(log + tail) == [log[..n]] + Lines(log[n + 1..] + tail)
  {
    var n := IndexOf(log, '\n');
    var t := log + tail;
    IndexOfConcat(log, tail, '\n');
    assert t[..n] == log[..n];
    assert t[n + 1..] == log[n + 1..] + tail;
  }

  /** Appending one newline-free line and its newline to a line-terminated text adds exactly
      that line and keeps every line before it. */
  lemma {:induction false} LinesAppend(log: string, line: string)
    requires LineTerminated(log)
    requires '\n' !in line
    ensures Lines(log + line + "\n") == Lines(log) + [line]
    decreases |log|
  {
    if log == [] {
      assert log + line + "\n" == line + "\n";
      LinesOfLine(line);
    } else {
      var n := IndexOf(log, '\n');
      IndexOfAtMost(log, '\n', |log| - 1);
      var rest := log[n + 1..];
      var tail := line + "\n";
      LinesSplitFirst(log, tail);
      assert LineTerminated(rest) by {
        if rest != [] {
          assert rest[|rest| - 1] == log[|log| - 1];
        }
      }
      LinesAppend(rest, line);
      assert log + line + "\n" == log + tail;
      assert rest + line + "\n" == rest + tail;
      AppendAfterFirst(log[..n], Lines(rest), line);
    }
  }

  /** Regrouping a list of lines around its first and last elements. */
  lemma AppendAfterFirst(first: string, lines: seq<string>, line: string)
    ensures [first] + (lines + [line]) == ([first] + lines) + [line]
  {
  }

  function Digit(d: nat): (c: char)
    requires d < 10
    ensures IsDigit(c)
  {
    "0123456789"[d]
  }

  /** `str(n)` for a natural number: its decimal digits, without leading zeros. */
  function NatToString(n: nat): (r: string)
    ensures |r| >= 1 && AllDigits(r)
  {
    if n < 10 then [Digit(n)] else NatToString(n / 10) + [Digit(n % 10)]
  }

  /** The value of a string of decimal digits. */
  function DigitsValue(s: string): nat
    requires AllDigits(s)
  {
    if s == [] then 0 else 10 * DigitsValue(s[..|s| - 1]) + (s[|s| - 1] as int - '0' as int)
  }

  lemma {:induction false} NatToStringValue(n: nat)
    ensures DigitsValue(NatToString(n)) == n
  {
    if n >= 10 {
      var r := NatToString(n);
      assert r[..|r| - 1] == NatToString(n / 10);
      NatToStringValue(n / 10);
    }
  }

  /** Distinct numbers print differently. */
  lemma NatToStringInjective(m: nat, n: nat)
    requires NatToString(m) == NatToString(n)
    ensures m == n
  {
    NatToStringValue(m);
    NatToStringValue(n);
  }

  /** `str(i)` for any integer. */
  function IntToString(i: int): string {
    if i < 0 then "-" + NatToString(-i) else NatToString(i)
  }

  /** `int(s)` on a str: surrounding white space, an optional sign, then decimal digits;
      anything else raises ValueError, modelled as None. */
  function ParseInt(s: string): Option<int> {
    ParseStripped(Strip(s))
  }

  /** `int` on a text with no surrounding white space. */
  function ParseStripped(t: string): Option<int> {
    if t != [] && (t[0] == '-' || t[0] == '+') then
      var d := t[1..];
      if d != [] && AllDigits(d) then
        var v: int := DigitsValue(d);
        Some(if t[0] == '-' then -v else v)
      else None
    else if t != [] && AllDigits(t) then
      Some(DigitsValue(t))
    else None
  }

  /** A digit string is read as its value. */
  lemma ParseDigits(d: string)
    requires d != [] && AllDigits(d)
    ensures ParseInt(d) == Some(DigitsValue(d))
  {
    assert IsDigit(d[0]) && IsDigit(d[|d| - 1]);
    StripUnchanged(d);
    assert d[0] != '-' && d[0] != '+';
  }

  /** A minus sign and a digit string is read as the negated value. */
  lemma ParseNegative(d: string)
    requires d != [] && AllDigits(d)
    ensures ParseInt("-" + d) == Some(-(DigitsValue(d) as int))
  {
    SignedStripped(d);
    SignedDigits(d);
  }

  /** A signed digit string has no surrounding white space. */
  lemma SignedStripped(d: string)
    requires d != [] && AllDigits(d)
    ensures Strip("-" + d) == "-" + d
  {
    var t := "-" + d;
    assert t[|t| - 1] == d[|d| - 1];
    assert IsDigit(d[|d| - 1]);
    StripUnchanged(t);
  }

  /** The sign is read, then the digits. */
  lemma SignedDigits(d: string)
    requires d != [] && AllDigits(d)
    ensures ParseStripped("-" + d) == Some(-(DigitsValue(d) as int))
  {
    var t := "-" + d;
    assert t[0] == '-';
    assert t[1..] == d;
  }

  /** `int(str(i)) == i` */
  lemma ParseIntRoundTrip(i: int)
    ensures ParseInt(IntToString(i)) == Some(i)
  {
    var n: nat := if i < 0 then -i else i;
    NatToStringValue(n);
    if i < 0 {
      ParseNegative(NatToString(n));
    } else {
      ParseDigits(NatToString(n));
    }
  }
}
