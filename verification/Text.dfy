/** Searching and number printing shared by the HTTP and JSON code. */
module Text {

  datatype Option<T> = None | Some(value: T)

  const CRLF: string := "\r\n"

  // ---------- Line ends ----------

  predicate CrlfAt(s: string, i: nat) { i + 1 < |s| && s[i] == '\r' && s[i + 1] == '\n' }

  predicate CrlfFree(s: string) { forall i | 0 <= i < |s| :: !CrlfAt(s, i) }

  /** `std::search` for CRLF: the first occurrence, or the end of the text. */
  function FindCrlf(s: string): (n: nat)
    ensures n <= |s|
    ensures n < |s| ==> CrlfAt(s, n)
    ensures forall i | 0 <= i < n :: !CrlfAt(s, i)
  {
    if s == "" || CrlfAt(s, 0) then 0
    else
      var n := FindCrlf(s[1..]);
      assert forall i | 0 < i < |s| :: CrlfAt(s, i) <==> CrlfAt(s[1..], i - 1);
      n + 1
  }

  lemma FindCrlfAfter(line: string, rest: string)
    requires CrlfFree(line)
    ensures FindCrlf(line + CRLF + rest) == |line|
  {
    var s := line + CRLF + rest;
    assert CrlfAt(s, |line|);
    forall i | 0 <= i < |line|
      ensures !CrlfAt(s, i)
    {
      assert !CrlfAt(line, i);
    }
  }

  /** No CR and no LF. */
  predicate SingleLine(s: string) { '\r' !in s && '\n' !in s }

  // ---------- Single characters ----------

  /** The text up to the first `c`, and the text from there on. */
  function Span(s: string, c: char): (r: (string, string))
    ensures s == r.0 + r.1 && c !in r.0 && (r.1 == "" || r.1[0] == c)
  {
    if s == "" || s[0] == c then ("", s)
    else
      var (a, t) := Span(s[1..], c);
      ([s[0]] + a, t)
  }

  lemma {:induction false} SpanIs(s: string, a: string, c: char, t: string)
    requires s == a + t && c !in a && (t == "" || t[0] == c)
    ensures Span(s, c) == (a, t)
  {
    if a == "" {
      assert s == t;
    } else {
      assert s[1..] == a[1..] + t;
      SpanIs(s[1..], a[1..], c, t);
      assert a == [s[0]] + a[1..];
    }
  }

  /** No split before a `c`, or at the end, comes earlier. */
  lemma {:induction false} SpanIsShortest(s: string, a: string, c: char, t: string)
    requires s == a + t && (t == "" || t[0] == c)
    ensures Span(s, c).0 <= a
  {
    if s != "" && s[0] != c {
      assert s[1..] == a[1..] + t;
      SpanIsShortest(s[1..], a[1..], c, t);
      assert a == [s[0]] + a[1..];
    }
  }

  /** The two sides of the first `c`. */
  function Cut(s: string, c: char): (r: Option<(string, string)>)
    ensures r.Some? ==> s == r.value.0 + [c] + r.value.1 && c !in r.value.0
    ensures r.None? <==> c !in s
  {
    var (a, t) := Span(s, c);
    if t == "" then None else Some((a, t[1..]))
  }

  lemma CutIs(s: string, a: string, c: char, b: string)
    requires s == a + [c] + b && c !in a
    ensures Cut(s, c) == Some((a, b))
  {
    var t := [c] + b;
    assert s == a + t;
    SpanIs(s, a, c, t);
  }

  // ---------- Decimal numbers ----------

  predicate IsDigit(c: char) { '0' <= c <= '9' }

  predicate AllDigits(s: string) { forall i | 0 <= i < |s| :: IsDigit(s[i]) }

  lemma DigitsOnly(s: string, c: char)
    requires AllDigits(s) && !IsDigit(c)
    ensures c !in s
  {
  }

  function DigitChar(d: nat): char
    requires d < 10
  {
    '0' + d as char
  }

  /** `std::to_string` of an unsigned number. */
  function Decimal(n: nat): (s: string)
    ensures s != "" && AllDigits(s)
  {
    if n < 10 then [DigitChar(n)] else Decimal(n / 10) + [DigitChar(n % 10)]
  }

  /** The number a digit string denotes. */
  function DecimalValue(s: string): nat
    requires AllDigits(s)
  {
    if s == "" then 0 else 10 * DecimalValue(s[..|s| - 1]) + (s[|s| - 1] - '0') as nat
  }

  lemma {:induction false} DecimalRoundTrip(n: nat)
    ensures DecimalValue(Decimal(n)) == n
  {
    if n >= 10 {
      DecimalRoundTrip(n / 10);
      var s := Decimal(n);
      assert s[..|s| - 1] == Decimal(n / 10);
    }
  }

  // ---------- Concatenation ----------

  lemma Regroup<T>(a: seq<T>, b: seq<T>, c: seq<T>)
    ensures (a + b) + c == a + (b + c)
  {
  }
}
