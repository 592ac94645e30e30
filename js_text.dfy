/**
 * The pieces of JavaScript string and value semantics that the scan task relies on:
 * truthiness and template interpolation of optional JSON fields, decimal conversion
 * between integers and strings, `String.prototype.trim`, ASCII case mapping and
 * `split(/\r?\n/)`.
 */
module JsText {
  import opened Wrappers

  /** A scalar field read from a JSON body; `Absent` is JavaScript's `undefined`. */
  datatype Field = Absent | Text(s: string) | Number(n: int)

  /** JavaScript truthiness of a field: `undefined`, `""` and `0` are falsy. */
  predicate Truthy(f: Field)
  {
    match f
    case Absent => false
    case Text(s) => s != ""
    case Number(n) => n != 0
  }

  /** JavaScript truthiness of an optional string input: set and not empty. */
  predicate Present(value: Option<string>)
  {
    value.Some? && value.value != ""
  }

  /** The text a template literal `${f}` inserts for the field. */
  function Render(f: Field): string
  {
    match f
    case Absent => "undefined"
    case Text(s) => s
    case Number(n) => IntToString(n)
  }

  /** A string holding neither a line feed nor a carriage return, so it stays one line. */
  predicate SingleLine(s: string)
  {
    '\n' !in s && '\r' !in s
  }

  // ----- Decimal digits

  predicate IsDigit(c: char)
  {
    '0' <= c <= '9'
  }

  predicate AllDigits(s: string)
  {
    forall i :: 0 <= i < |s| ==> IsDigit(s[i])
  }

  function DigitChar(d: nat): (c: char)
    requires d < 10
    ensures IsDigit(c) && c as int - '0' as int == d
  {
    ('0' as int + d) as char
  }

  /** The decimal text of a natural number as `String(n)` writes it: digits only, no leading zero. */
  function NatToString(n: nat): (s: string)
    ensures |s| >= 1 && AllDigits(s)
    ensures s[0] == '0' ==> n == 0
    decreases n
  {
    if n < 10 then [DigitChar(n)] else NatToString(n / 10) + [DigitChar(n % 10)]
  }

  /** The decimal text of an integer, with a leading `-` when it is negative. */
  function IntToString(n: int): string
  {
    if n < 0 then "-" + NatToString(-n) else NatToString(n)
  }

  /** The value of a string of decimal digits. */
  function DigitsValue(s: string): nat
    requires AllDigits(s)
    decreases |s|
  {
    if s == [] then 0 else DigitsValue(s[..|s| - 1]) * 10 + (s[|s| - 1] as int - '0' as int)
  }

  /** Reading back the decimal text of a natural number gives the number. */
  lemma {:induction false} DigitsValueOfNatToString(n: nat)
    ensures DigitsValue(NatToString(n)) == n
    decreases n
  {
    if n >= 10 {
      var s := NatToString(n);
      assert s[..|s| - 1] == NatToString(n / 10);
      DigitsValueOfNatToString(n / 10);
    }
  }

  /** The outcome of JavaScript's unary `+` applied to a string. */
  datatype JsNumber = Num(value: int) | NaN

  /**
   * Unary `+` on a string, for integral decimal text: surrounding white space is
   * ignored, blank text is 0, an optional sign may lead the digits, anything else is NaN.
   */
  function ToNumber(s: string): JsNumber
  {
    ParseDecimal(Trim(s))
  }

  /** The number a trimmed text denotes: blank is 0, then optionally signed decimal digits. */
  function ParseDecimal(t: string): JsNumber
  {
    if t == "" then Num(0)
    else if AllDigits(t) then Num(DigitsValue(t))
    else if |t| >= 2 && (t[0] == '-' || t[0] == '+') && AllDigits(t[1..]) then
      if t[0] == '-' then Num(-(DigitsValue(t[1..]) as int)) else Num(DigitsValue(t[1..]))
    else NaN
  }

  /** Unary `+` inverts the decimal rendering of every integer. */
  lemma ToNumberOfIntToString(n: int)
    ensures ToNumber(IntToString(n)) == Num(n)
  {
    IntToStringTrimmed(n);
    TrimOfTrimmed(IntToString(n));
    ParseDecimalOfIntToString(n);
  }

  lemma ParseDecimalOfIntToString(n: int)
    ensures ParseDecimal(IntToString(n)) == Num(n)
  {
    if n < 0 {
      NegativeDigits(n);
    } else {
      DigitsValueOfNatToString(n);
    }
  }

  /** The decimal text of an integer has no surrounding white space. */
  lemma IntToStringTrimmed(n: int)
    ensures Trimmed(IntToString(n))
  {
    var s := IntToString(n);
    assert IsDigit(s[|s| - 1]);
    assert s[0] == '-' || IsDigit(s[0]);
  }

  /** The text of a negative integer is a minus sign and the digits of its magnitude. */
  lemma NegativeDigits(n: int)
    requires n < 0
    ensures var s := IntToString(n);
            |s| >= 2 && s[0] == '-' && !AllDigits(s) && AllDigits(s[1..]) && DigitsValue(s[1..]) == -n
  {
    var s := IntToString(n);
    assert s[1..] == NatToString(-n);
    DigitsValueOfNatToString(-n);
    assert !IsDigit(s[0]);
  }

  // ----- White space and String.prototype.trim

  /** The characters `trim` removes: ECMAScript WhiteSpace and LineTerminator. */
  predicate IsJsWhitespace(c: char)
  {
    c == '\t' || c == '\n' || c == '\U{B}' || c == '\U{C}' || c == '\r' || c == ' '
    || c == '\U{A0}' || c == '\U{1680}' || ('\U{2000}' <= c <= '\U{200A}')
    || c == '\U{2028}' || c == '\U{2029}' || c == '\U{202F}' || c == '\U{205F}'
    || c == '\U{3000}' || c == '\U{FEFF}'
  }

  /** Every character of `s` from `lo` up to `hi` is white space. */
  predicate WhitespaceBetween(s: string, lo: nat, hi: nat)
    requires lo <= hi <= |s|
  {
    forall k :: lo <= k < hi ==> IsJsWhitespace(s[k])
  }

  /** Text that neither starts nor ends with white space. */
  predicate Trimmed(s: string)
  {
    s != [] ==> !IsJsWhitespace(s[0]) && !IsJsWhitespace(s[|s| - 1])
  }

  /** Where the white space starting at `i` ends. */
  function SkipSpace(s: string, i: nat): (n: nat)
    requires i <= |s|
    ensures i <= n <= |s| && WhitespaceBetween(s, i, n)
    ensures n < |s| ==> !IsJsWhitespace(s[n])
    decreases |s| - i
  {
    if i < |s| && IsJsWhitespace(s[i]) then SkipSpace(s, i + 1) else i
  }

  /** Where the white space ending at `j`, and not reaching before `lo`, starts. */
  function SkipSpaceBack(s: string, lo: nat, j: nat): (m: nat)
    requires lo <= j <= |s|
    ensures lo <= m <= j && WhitespaceBetween(s, m, j)
    ensures lo < m ==> !IsJsWhitespace(s[m - 1])
    decreases j
  {
    if lo < j && IsJsWhitespace(s[j - 1]) then SkipSpaceBack(s, lo, j - 1) else j
  }

  /** Where the text `trim` keeps starts. */
  function TrimStart(s: string): nat
  {
    SkipSpace(s, 0)
  }

  /**
   * `s.trim()`: the longest infix of `s` that neither starts nor ends with white space,
   * everything before and after it being white space.
   */
  function Trim(s: string): (r: string)
    ensures |r| <= |s| && Trimmed(r)
    ensures var i := TrimStart(s);
              i + |r| <= |s| && s[i..i + |r|] == r && WhitespaceBetween(s, 0, i) && WhitespaceBetween(s, i + |r|, |s|)
  {
    var a := SkipSpace(s, 0);
    var b := SkipSpaceBack(s, a, |s|);
    s[a..b]
  }

  /** Trimming leaves text alone that neither starts nor ends with white space. */
  lemma TrimOfTrimmed(s: string)
    requires Trimmed(s)
    ensures Trim(s) == s
  {
  }

  /** Trimming twice is trimming once. */
  lemma TrimIdempotent(s: string)
    ensures Trim(Trim(s)) == Trim(s)
  {
    TrimOfTrimmed(Trim(s));
  }

  // ----- ASCII case mapping

  function UpperChar(c: char): char
  {
    if 'a' <= c <= 'z' then (c as int - 32) as char else c
  }

  function LowerChar(c: char): char
  {
    if 'A' <= c <= 'Z' then (c as int + 32) as char else c
  }

  /** `s.toUpperCase()` on ASCII letters; other characters are kept. */
  function ToUpper(s: string): (r: string)
    ensures |r| == |s| && forall i :: 0 <= i < |s| ==> r[i] == UpperChar(s[i])
  {
    seq(|s|, i requires 0 <= i < |s| => UpperChar(s[i]))
  }

  /** `s.toLowerCase()` on ASCII letters; other characters are kept. */
  function ToLower(s: string): (r: string)
    ensures |r| == |s| && forall i :: 0 <= i < |s| ==> r[i] == LowerChar(s[i])
  {
    seq(|s|, i requires 0 <= i < |s| => LowerChar(s[i]))
  }

  // ----- s.split(/\r?\n/)

  /**
   * `s.split(/\r?\n/)`: the pieces between the line breaks, where a line break is a
   * line feed together with the carriage return right before it, if there is one.
   */
  function SplitLines(s: string): (r: seq<string>)
    ensures |r| >= 1
    ensures forall k :: 0 <= k < |r| ==> '\n' !in r[k]
    decreases |s|
  {
    if s == [] then [""]
    else if s[0] == '\n' then [""] + SplitLines(s[1..])
    else if |s| >= 2 && s[0] == '\r' && s[1] == '\n' then [""] + SplitLines(s[2..])
    else
      var rest := SplitLines(s[1..]);
      [[s[0]] + rest[0]] + rest[1..]
  }

  /** The number of line feeds in `s`. */
  function LineFeeds(s: string): nat
    decreases |s|
  {
    if s == [] then 0 else (if s[0] == '\n' then 1 else 0) + LineFeeds(s[1..])
  }

  /** Every line feed ends exactly one piece, so there is one piece more than line feeds. */
  lemma {:induction false} SplitLinesCount(s: string)
    ensures |SplitLines(s)| == LineFeeds(s) + 1
    decreases |s|
  {
    if s == [] {
    } else if s[0] == '\n' {
      SplitLinesCount(s[1..]);
    } else if |s| >= 2 && s[0] == '\r' && s[1] == '\n' {
      SplitLinesCount(s[2..]);
      assert LineFeeds(s[1..]) == 1 + LineFeeds(s[2..]) by { assert s[1..][1..] == s[2..]; }
    } else {
      SplitLinesCount(s[1..]);
    }
  }

  /** A single-line text followed by a line feed contributes exactly itself as a piece. */
  lemma {:induction false} SplitAfterLine(x: string, t: string)
    requires SingleLine(x)
    ensures SplitLines(x + "\n" + t) == [x] + SplitLines(t)
    decreases |x|
  {
    var s := x + "\n" + t;
    if x == [] {
      assert s[1..] == t;
    } else {
      assert s[0] == x[0];
      assert s[1..] == x[1..] + "\n" + t;
      SplitAfterLine(x[1..], t);
      assert [x[0]] + x[1..] == x;
    }
  }

  /** A carriage return right before a line feed goes with it: `x\r\n` also contributes exactly `x`. */
  lemma {:induction false} SplitAfterCrlfLine(x: string, t: string)
    requires SingleLine(x)
    ensures SplitLines(x + "\r\n" + t) == [x] + SplitLines(t)
    decreases |x|
  {
    var s := x + "\r\n" + t;
    if x == [] {
      assert s[0] == '\r' && s[1] == '\n';
      assert s[2..] == t;
    } else {
      assert s[0] == x[0] && s[0] != '\n';
      assert s[1] != '\n' by {
        if |x| >= 2 { assert s[1] == x[1]; } else { assert s[1] == '\r'; }
      }
      assert s[1..] == x[1..] + "\r\n" + t;
      SplitAfterCrlfLine(x[1..], t);
      assert [x[0]] + x[1..] == x;
    }
  }

  /** A single-line text is split into itself. */
  lemma {:induction false} SplitSingleLine(x: string)
    requires SingleLine(x)
    ensures SplitLines(x) == [x]
    decreases |x|
  {
    if x != [] {
      SplitSingleLine(x[1..]);
      assert [x[0]] + x[1..] == x;
    }
  }

  /** Lines joined by line feeds. */
  function JoinLines(lines: seq<string>): string
    requires |lines| >= 1
    decreases |lines|
  {
    if |lines| == 1 then lines[0] else lines[0] + "\n" + JoinLines(lines[1..])
  }

  /** Splitting single lines joined by line feeds gives the lines back. */
  lemma {:induction false} SplitJoinLines(lines: seq<string>)
    requires |lines| >= 1
    requires forall k :: 0 <= k < |lines| ==> SingleLine(lines[k])
    ensures SplitLines(JoinLines(lines)) == lines
    decreases |lines|
  {
    if |lines| == 1 {
      SplitSingleLine(lines[0]);
    } else {
      SplitJoinLines(lines[1..]);
      SplitAfterLine(lines[0], JoinLines(lines[1..]));
    }
  }

  /** Joining the pieces of a text without carriage returns gives the text back. */
  lemma {:induction false} JoinSplitLines(s: string)
    requires '\r' !in s
    ensures JoinLines(SplitLines(s)) == s
    decreases |s|
  {
    if s == [] {
    } else if s[0] == '\n' {
      JoinSplitLines(s[1..]);
      var rest := SplitLines(s[1..]);
      assert JoinLines([""] + rest) == "" + "\n" + JoinLines(rest) by { assert ([""] + rest)[1..] == rest; }
    } else {
      JoinSplitLines(s[1..]);
      var rest := SplitLines(s[1..]);
      var r := [[s[0]] + rest[0]] + rest[1..];
      if |rest| == 1 {
        assert JoinLines(r) == [s[0]] + rest[0];
      } else {
        assert r[1..] == rest[1..];
        assert JoinLines(rest) == rest[0] + "\n" + JoinLines(rest[1..]);
        assert JoinLines(r) == [s[0]] + rest[0] + "\n" + JoinLines(rest[1..]);
      }
      assert s == [s[0]] + s[1..];
    }
  }

  // ----- Text built line by line

  /** One line followed by its line feed. */
  function Line(x: string): string
  {
    x + "\n"
  }

  /** Lines, each followed by a line feed. */
  function Lines(ls: seq<string>): string
    decreases |ls|
  {
    if ls == [] then "" else Line(ls[0]) + Lines(ls[1..])
  }

  /** Writing two runs of lines one after the other writes their concatenation. */
  lemma {:induction false} LinesAppend(a: seq<string>, b: seq<string>)
    ensures Lines(a + b) == Lines(a) + Lines(b)
    decreases |a|
  {
    if a == [] {
      assert a + b == b;
    } else {
      assert (a + b)[1..] == a[1..] + b;
      LinesAppend(a[1..], b);
    }
  }

  /** A run of two lines. */
  lemma LinesPair(a: string, b: string)
    ensures Lines([a, b]) == Line(a) + Line(b)
  {
    assert [a, b][1..] == [b];
    assert Lines([b]) == Line(b) + Lines([]);
  }

  /** Every one of the lines stays on one line. */
  predicate AllSingleLine(ls: seq<string>)
  {
    forall k :: 0 <= k < |ls| ==> SingleLine(ls[k])
  }

  lemma AllSingleLineAppend(a: seq<string>, b: seq<string>)
    requires AllSingleLine(a) && AllSingleLine(b)
    ensures AllSingleLine(a + b)
  {
    assert forall k :: |a| <= k < |a + b| ==> (a + b)[k] == b[k - |a|];
  }

  /** Joining two one-line texts gives one line. */
  lemma SingleLineConcat(a: string, b: string)
    ensures SingleLine(a + b) <==> SingleLine(a) && SingleLine(b)
  {
  }

  /** One line more at the end of a run of lines. */
  lemma LinesSnoc(a: seq<string>, x: string)
    ensures Lines(a + [x]) == Lines(a) + Line(x)
  {
    LinesAppend(a, [x]);
    assert Lines([x]) == Line(x) + Lines([]);
  }

  /** Splitting single lines, each ended by a line feed, then a tail gives the lines, then the tail's pieces. */
  lemma {:induction false} SplitLinesOfLines(ls: seq<string>, t: string)
    requires AllSingleLine(ls)
    ensures SplitLines(Lines(ls) + t) == ls + SplitLines(t)
    decreases |ls|
  {
    if ls == [] {
      assert Lines(ls) + t == t;
    } else {
      var rest := Lines(ls[1..]) + t;
      assert Lines(ls) + t == ls[0] + "\n" + rest;
      SplitLinesOfLines(ls[1..], t);
      SplitAfterLine(ls[0], rest);
      var u := SplitLines(t);
      assert ls == [ls[0]] + ls[1..];
      assert [ls[0]] + (ls[1..] + u) == ([ls[0]] + ls[1..]) + u;
    }
  }
}
