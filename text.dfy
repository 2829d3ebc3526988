/** The string operations the streaming script relies on: lower-casing and suffix tests on
    file paths, and Python's int() applied to a line the user typed. */
module Text {

  datatype Option<T> = None | Some(value: T)

  /** str.lower() on one character; only the ASCII letters are modelled. */
  function LowerChar(c: char): char
  {
    if 'A' <= c <= 'Z' then (c as int + 32) as char else c
  }

  function Lower(s: string): string
  {
    seq(|s|, i requires 0 <= i < |s| => LowerChar(s[i]))
  }

  /** str.endswith with one suffix. */
  predicate EndsWith(s: string, suffix: string)
  {
    |suffix| <= |s| && s[|s| - |suffix|..] == suffix
  }

  /** The ASCII white space int() strips: tab, line feed, vertical tab, form feed, carriage
      return and space. (str.isspace() also accepts the separators 0x1C-0x1F, but int() does
      not strip them.) */
  predicate IsSpace(c: char)
  {
    c == ' ' || 9 <= c as int <= 13
  }

  function TrimStart(s: string): (r: string)
  {
    if |s| > 0 && IsSpace(s[0]) then TrimStart(s[1..]) else s
  }

  function TrimEnd(s: string): (r: string)
  {
    if |s| > 0 && IsSpace(s[|s| - 1]) then TrimEnd(s[..|s| - 1]) else s
  }

  function Strip(s: string): string
  {
    TrimEnd(TrimStart(s))
  }

  predicate IsDigit(c: char)
  {
    '0' <= c <= '9'
  }

  function DigitValue(c: char): nat
    requires IsDigit(c)
  {
    c as int - '0' as int
  }

  /** The digits of a decimal literal as Python reads them: at least one digit, and an
      underscore only between two digits. */
  predicate IsDigitRun(s: string)
  {
    && |s| > 0
    && IsDigit(s[0])
    && IsDigit(s[|s| - 1])
    && (forall i :: 0 <= i < |s| ==> IsDigit(s[i]) || s[i] == '_')
    && (forall i :: 0 <= i < |s| - 1 ==> s[i] == '_' ==> s[i + 1] != '_')
  }

  /** The value of a run of digits, underscores ignored. */
  function RunValue(s: string): nat
  {
    if s == [] then 0
    else
      var last := s[|s| - 1];
      if IsDigit(last) then RunValue(s[..|s| - 1]) * 10 + DigitValue(last)
      else RunValue(s[..|s| - 1])
  }

  /** Python's int(line) in base 10: white space around the number, an optional sign, then
      the digits. Anything else raises ValueError, modelled as None. */
  function ParseInt(line: string): (r: Option<int>)
    ensures r.Some? ==> |Strip(line)| > 0 && IsDigit(Strip(line)[|Strip(line)| - 1])
    ensures r.Some? && r.value < 0 ==> Strip(line)[0] == '-'
  {
    var t := Strip(line);
    if |t| > 0 && (t[0] == '+' || t[0] == '-') then
      var magnitude: int := RunValue(t[1..]);
      if IsDigitRun(t[1..]) then Some(if t[0] == '-' then -magnitude else magnitude)
      else None
    else if IsDigitRun(t) then Some(RunValue(t))
    else None
  }

  function DigitChar(d: nat): (c: char)
    requires d < 10
    ensures IsDigit(c) && DigitValue(c) == d
  {
    ('0' as int + d) as char
  }

  /** The decimal rendering of a natural number, without leading zeros. */
  function Decimal(n: nat): (s: string)
    ensures |s| > 0
    ensures forall i :: 0 <= i < |s| ==> IsDigit(s[i])
  {
    if n < 10 then [DigitChar(n)] else Decimal(n / 10) + [DigitChar(n % 10)]
  }

  /** str(n) for an integer n. */
  function Show(n: int): string
  {
    if n < 0 then "-" + Decimal(-n) else Decimal(n)
  }

  lemma {:induction false} DecimalValue(n: nat)
    ensures IsDigitRun(Decimal(n))
    ensures RunValue(Decimal(n)) == n
  {
    var s := Decimal(n);
    if n >= 10 {
      DecimalValue(n / 10);
      assert s[..|s| - 1] == Decimal(n / 10);
    }
  }

  lemma StripUnchanged(s: string)
    requires |s| > 0 && !IsSpace(s[0]) && !IsSpace(s[|s| - 1])
    ensures Strip(s) == s
  {
  }

  lemma ParseUnsigned(d: string)
    requires IsDigitRun(d)
    ensures ParseInt(d) == Some(RunValue(d))
  {
    StripUnchanged(d);
  }

  lemma ParseNegative(d: string)
    requires IsDigitRun(d)
    ensures ParseInt("-" + d) == Some(-(RunValue(d) as int))
  {
    var s := "-" + d;
    StripUnchanged(s);
    assert s[1..] == d;
  }

  /** int(str(n)) == n: every integer the program prints reads back as itself. */
  lemma ParseShow(n: int)
    ensures ParseInt(Show(n)) == Some(n)
  {
    var d := Decimal(if n < 0 then -n else n);
    DecimalValue(if n < 0 then -n else n);
    if n < 0 {
      ParseNegative(d);
    } else {
      ParseUnsigned(d);
    }
  }

  /** White space typed before or after the number does not change what int() reads. */
  lemma ParseIgnoresPadding(pre: string, line: string, post: string)
    requires forall i :: 0 <= i < |pre| ==> IsSpace(pre[i])
    requires forall i :: 0 <= i < |post| ==> IsSpace(post[i])
    ensures ParseInt(pre + line + post) == ParseInt(line)
  {
    StripPadded(pre, line, post);
  }

  /** A tab and a space around "2" are stripped, but a unit separator (0x1F) is not:
      int() raises ValueError on "2" followed by it. */
  lemma SeparatorNotStripped()
    ensures ParseInt("\t2 ") == Some(2)
    ensures ParseInt("2" + [31 as char]) == None
  {
    ParseIgnoresPadding("\t", "2", " ");
    ParseUnsigned("2");
    var t := "2" + [31 as char];
    assert TrimStart(t) == t;
    assert TrimEnd(t) == t;
  }

  lemma StripPadded(pre: string, line: string, post: string)
    requires forall i :: 0 <= i < |pre| ==> IsSpace(pre[i])
    requires forall i :: 0 <= i < |post| ==> IsSpace(post[i])
    ensures Strip(pre + line + post) == Strip(line)
  {
    assert pre + line + post == pre + (line + post);
    TrimStartPrefix(pre, line + post);
    TrimStartAppend(line, post);
    if TrimStart(line) != [] {
      TrimEndSuffix(TrimStart(line), post);
    }
  }

  lemma {:induction false} TrimStartPrefix(pre: string, s: string)
    requires forall i :: 0 <= i < |pre| ==> IsSpace(pre[i])
    ensures TrimStart(pre + s) == TrimStart(s)
  {
    if |pre| > 0 {
      assert (pre + s)[1..] == pre[1..] + s;
      TrimStartPrefix(pre[1..], s);
    } else {
      assert pre + s == s;
    }
  }

  lemma {:induction false} TrimEndSuffix(s: string, post: string)
    requires forall i :: 0 <= i < |post| ==> IsSpace(post[i])
    ensures TrimEnd(s + post) == TrimEnd(s)
    decreases |post|
  {
    if |post| > 0 {
      var n := |post| - 1;
      assert (s + post)[..|s + post| - 1] == s + post[..n];
      TrimEndSuffix(s, post[..n]);
    } else {
      assert s + post == s;
    }
  }

  lemma {:induction false} TrimStartAppend(s: string, tail: string)
    requires forall i :: 0 <= i < |tail| ==> IsSpace(tail[i])
    ensures TrimStart(s) != [] ==> TrimStart(s + tail) == TrimStart(s) + tail
    ensures TrimStart(s) == [] ==> TrimStart(s + tail) == []
  {
    if |s| == 0 {
      assert s + tail == tail;
      TrimStartAllSpace(tail);
    } else if IsSpace(s[0]) {
      assert (s + tail)[1..] == s[1..] + tail;
      TrimStartAppend(s[1..], tail);
    }
  }

  lemma {:induction false} TrimStartAllSpace(s: string)
    requires forall i :: 0 <= i < |s| ==> IsSpace(s[i])
    ensures TrimStart(s) == []
  {
    if |s| > 0 {
      TrimStartAllSpace(s[1..]);
    }
  }
}
