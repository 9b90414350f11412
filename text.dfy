/** String helpers shared by the pipeline: Python's notion of whitespace,
    `str.strip()`, `str.join`, decimal formatting of integers (f-strings),
    and the facts about them that the components rely on. */
module Text {

  /** The characters for which Python's `str.isspace()` holds; the same set is
      matched by `\s` in a `str` regular expression and removed by `str.strip()`. */
  predicate IsWhitespace(c: char) {
    || ('\t' <= c <= '\r')
    || ('\U{1C}' <= c <= ' ')
    || c == '\U{85}' || c == '\U{A0}' || c == '\U{1680}'
    || ('\U{2000}' <= c <= '\U{200A}')
    || c == '\U{2028}' || c == '\U{2029}' || c == '\U{202F}' || c == '\U{205F}'
    || c == '\U{3000}'
  }

  predicate AllWhitespace(s: string) {
    forall i :: 0 <= i < |s| ==> IsWhitespace(s[i])
  }

  /** `s.lstrip()`. */
  function TrimStart(s: string): string {
    if s != [] && IsWhitespace(s[0]) then TrimStart(s[1..]) else s
  }

  /** `s.rstrip()`. */
  function TrimEnd(s: string): string {
    if s != [] && IsWhitespace(s[|s| - 1]) then TrimEnd(s[..|s| - 1]) else s
  }

  /** `lstrip()` drops the leading whitespace and nothing else. */
  lemma {:induction false} TrimStartSpec(s: string)
    ensures var r := TrimStart(s);
            |r| <= |s| && r == s[|s| - |r|..] && AllWhitespace(s[..|s| - |r|])
            && (r == [] || !IsWhitespace(r[0]))
  {
    if s != [] && IsWhitespace(s[0]) {
      TrimStartSpec(s[1..]);
      var r := TrimStart(s);
      assert s[..|s| - |r|] == [s[0]] + s[1..][..|s| - 1 - |r|];
    }
  }

  /** `rstrip()` drops the trailing whitespace and nothing else. */
  lemma {:induction false} TrimEndSpec(s: string)
    ensures var r := TrimEnd(s);
            |r| <= |s| && r == s[..|r|] && AllWhitespace(s[|r|..])
            && (r == [] || !IsWhitespace(r[|r| - 1]))
  {
    if s != [] && IsWhitespace(s[|s| - 1]) {
      var u := s[..|s| - 1];
      TrimEndSpec(u);
      var r := TrimEnd(s);
      assert s[|r|..] == u[|r|..] + [s[|s| - 1]];
    }
  }

  /** `s.strip()`: the text between the leading and the trailing whitespace. */
  function Strip(s: string): (r: string)
    ensures |r| <= |s|
    ensures r == [] || (!IsWhitespace(r[0]) && !IsWhitespace(r[|r| - 1]))
  {
    TrimStartSpec(s);
    TrimEndSpec(TrimStart(s));
    TrimEnd(TrimStart(s))
  }

  /** What `strip()` keeps is a slice of the input, and only whitespace lies
      on either side of it; nothing is left exactly when the input is all whitespace. */
  lemma StripSlice(s: string)
    ensures var r := Strip(s);
            exists k :: 0 <= k <= k + |r| <= |s| && r == s[k..k + |r|]
                        && AllWhitespace(s[..k]) && AllWhitespace(s[k + |r|..])
    ensures Strip(s) == [] <==> AllWhitespace(s)
  {
    var t := TrimStart(s);
    var r := TrimEnd(t);
    TrimStartSpec(s);
    TrimEndSpec(t);
    var k := |s| - |t|;
    assert s[k..k + |r|] == r;
    assert s[k + |r|..] == t[|r|..];
    assert AllWhitespace(s[..k]) && AllWhitespace(s[k + |r|..]);
    assert r == [] ==> t == [] && s[..k] == s;
  }

  /** `sep.join(parts)`. */
  function Join(parts: seq<string>, sep: string): string {
    if |parts| == 0 then ""
    else if |parts| == 1 then parts[0]
    else parts[0] + sep + Join(parts[1..], sep)
  }

  function TotalLength(parts: seq<string>): nat {
    if parts == [] then 0 else |parts[0]| + TotalLength(parts[1..])
  }

  /** The joined string holds every part and one separator between neighbours. */
  lemma {:induction false} JoinLength(parts: seq<string>, sep: string)
    ensures |Join(parts, sep)| == TotalLength(parts) + (if parts == [] then 0 else (|parts| - 1) * |sep|)
  {
    if |parts| > 1 {
      JoinLength(parts[1..], sep);
    }
  }

  /** Appending a part appends a separator and that part. */
  lemma {:induction false} JoinSnoc(parts: seq<string>, x: string, sep: string)
    requires parts != []
    ensures Join(parts + [x], sep) == Join(parts, sep) + sep + x
  {
    if |parts| == 1 {
      assert (parts + [x])[1..] == [x];
    } else {
      assert (parts + [x])[1..] == parts[1..] + [x];
      JoinSnoc(parts[1..], x, sep);
    }
  }

  /** `s.split(c)` for a one-character separator: the pieces between the occurrences of `c`. */
  function Split(s: string, c: char): (r: seq<string>)
    ensures |r| >= 1
  {
    SplitFrom(s, c, "")
  }

  function SplitFrom(s: string, c: char, acc: string): (r: seq<string>)
    ensures |r| >= 1
    decreases |s|
  {
    if s == [] then [acc]
    else if s[0] == c then [acc] + SplitFrom(s[1..], c, "")
    else SplitFrom(s[1..], c, acc + [s[0]])
  }

  lemma {:induction false} SplitFromPiece(x: string, rest: string, c: char, acc: string)
    requires c !in x
    ensures SplitFrom(x + rest, c, acc) ==
            if rest == [] then [acc + x]
            else if rest[0] == c then [acc + x] + SplitFrom(rest[1..], c, "")
            else SplitFrom(rest[1..], c, acc + x + [rest[0]])
    decreases |x|
  {
    if x == [] {
      assert x + rest == rest && acc + x == acc;
    } else {
      assert (x + rest)[0] == x[0];
      assert (x + rest)[1..] == x[1..] + rest;
      SplitFromPiece(x[1..], rest, c, acc + [x[0]]);
      assert acc + [x[0]] + x[1..] == acc + x;
    }
  }

  /** Joining parts that do not contain the separator character and splitting on it
      gives the parts back. */
  lemma {:induction false} SplitJoin(parts: seq<string>, c: char)
    requires parts != []
    requires forall i :: 0 <= i < |parts| ==> c !in parts[i]
    ensures Split(Join(parts, [c]), c) == parts
  {
    var p := parts[0];
    assert "" + p == p;
    if |parts| == 1 {
      assert p + "" == p;
      SplitFromPiece(p, "", c, "");
      assert Split(Join(parts, [c]), c) == [p];
    } else {
      var tail := Join(parts[1..], [c]);
      var rest := [c] + tail;
      assert Join(parts, [c]) == p + rest;
      SplitFromPiece(p, rest, c, "");
      assert rest != [] && rest[0] == c && rest[1..] == tail;
      assert SplitFrom(p + rest, c, "") == [p] + SplitFrom(tail, c, "");
      SplitJoin(parts[1..], c);
      assert parts == [p] + parts[1..];
    }
  }

  predicate IsDigit(c: char) {
    '0' <= c <= '9'
  }

  predicate AllDigits(s: string) {
    forall i :: 0 <= i < |s| ==> IsDigit(s[i])
  }

  function DigitChar(d: nat): (c: char)
    requires d < 10
    ensures IsDigit(c)
  {
    (d + '0' as int) as char
  }

  function DigitValue(c: char): (d: nat)
    requires IsDigit(c)
    ensures d < 10
  {
    c as int - '0' as int
  }

  /** The decimal text of a non-negative integer, as an f-string renders it. */
  function Decimal(n: nat): (r: string)
    ensures r != [] && AllDigits(r)
  {
    if n < 10 then [DigitChar(n)] else Decimal(n / 10) + [DigitChar(n % 10)]
  }

  /** The value of a string of decimal digits. */
  function ParseDecimal(s: string): nat
    requires AllDigits(s)
  {
    if s == [] then 0 else ParseDecimal(s[..|s| - 1]) * 10 + DigitValue(s[|s| - 1])
  }

  lemma {:induction false} DecimalRoundTrip(n: nat)
    ensures ParseDecimal(Decimal(n)) == n
  {
    var r := Decimal(n);
    if n < 10 {
      assert r[..|r| - 1] == [];
    } else {
      assert r[..|r| - 1] == Decimal(n / 10);
      DecimalRoundTrip(n / 10);
    }
  }

  /** Different numbers have different decimal texts. */
  lemma DecimalInjective(m: nat, n: nat)
    requires Decimal(m) == Decimal(n)
    ensures m == n
  {
    DecimalRoundTrip(m);
    DecimalRoundTrip(n);
  }

  /** The number of digits at the end of a string. */
  function TrailingDigits(s: string): nat {
    if s != [] && IsDigit(s[|s| - 1]) then 1 + TrailingDigits(s[..|s| - 1]) else 0
  }

  lemma {:induction false} TrailingDigitsOf(a: string, d: string)
    requires a != [] && !IsDigit(a[|a| - 1]) && AllDigits(d)
    ensures TrailingDigits(a + d) == |d|
    decreases |d|
  {
    if d != [] {
      var d' := d[..|d| - 1];
      assert (a + d)[..|a + d| - 1] == a + d';
      TrailingDigitsOf(a, d');
    } else {
      assert a + d == a;
    }
  }

  /** A run of digits after a non-digit can be cut off in only one way: a string that
      is some text followed by a number is read back uniquely. */
  lemma DigitSuffixCut(a1: string, d1: string, a2: string, d2: string)
    requires a1 != [] && !IsDigit(a1[|a1| - 1]) && AllDigits(d1)
    requires a2 != [] && !IsDigit(a2[|a2| - 1]) && AllDigits(d2)
    requires a1 + d1 == a2 + d2
    ensures a1 == a2 && d1 == d2
  {
    var s := a1 + d1;
    TrailingDigitsOf(a1, d1);
    TrailingDigitsOf(a2, d2);
    assert a1 == s[..|a1|] == a2;
    assert d1 == s[|a1|..] == d2;
  }
}
