/**
 * Text scanning used by the multistatus merger: substring search, the
 * non-greedy `(?Us)<open>.*<close>` match written out as two searches,
 * Go's strings.TrimPrefix / TrimSuffix / TrimSpace (on single bytes), and the decimal
 * rendering that fmt's `%v` gives a non-negative integer.
 */
module Text {
  import opened Wrappers

  /** `pat` occurs in `s` starting at index `i`. */
  predicate IsAt(s: string, i: int, pat: string)
  {
    0 <= i && i + |pat| <= |s| && s[i..i + |pat|] == pat
  }

  /** The first index at or after `from` where `pat` occurs in `s`. */
  function IndexFrom(s: string, pat: string, from: nat): (r: Option<nat>)
    decreases |s| - from
    ensures r.Some? ==> from <= r.value && IsAt(s, r.value, pat)
    ensures r.Some? ==> forall i :: from <= i < r.value ==> !IsAt(s, i, pat)
    ensures r.None? ==> forall i :: from <= i ==> !IsAt(s, i, pat)
  {
    if |s| < from + |pat| then None
    else if s[from..from + |pat|] == pat then Some(from)
    else IndexFrom(s, pat, from + 1)
  }

  /** A match `s[start..end]` of a delimited pattern. */
  datatype Span = Span(start: nat, end: nat)

  /**
   * The leftmost match at or after `from` of the non-greedy, dot-matches-newline
   * pattern `open .* close`: it starts at the first `open`, and ends right after
   * the first `close` that begins at or after the end of that `open`.
   * `None` exactly when no `open` at or after `from` is followed by a `close`.
   */
  function FindSpan(s: string, open: string, close: string, from: nat): (r: Option<Span>)
    ensures r.Some? ==> var sp := r.value;
      && from <= sp.start && sp.start + |open| + |close| <= sp.end <= |s|
      && IsAt(s, sp.start, open) && IsAt(s, sp.end - |close|, close)
      && (forall i :: from <= i < sp.start ==> !IsAt(s, i, open))
      && (forall j :: sp.start + |open| <= j < sp.end - |close| ==> !IsAt(s, j, close))
    ensures r.None? ==>
      forall a, c :: from <= a && a + |open| <= c && IsAt(s, a, open) ==> !IsAt(s, c, close)
  {
    match IndexFrom(s, open, from)
    case None => None
    case Some(a) =>
      match IndexFrom(s, close, a + |open|)
      case None => None
      case Some(c) => Some(Span(a, c + |close|))
  }

  /** Go's `regexp.FindString` for `open .* close`: the leftmost match, or "" when there is none. */
  function FindString(s: string, open: string, close: string): (r: string)
    ensures r == "" || (|open| + |close| <= |r| && r[..|open|] == open && r[|r| - |close|..] == close)
    ensures FindSpan(s, open, close, 0).None? ==> r == ""
    ensures FindSpan(s, open, close, 0).Some? ==>
      var sp := FindSpan(s, open, close, 0).value; r == s[sp.start..sp.end]
  {
    match FindSpan(s, open, close, 0)
    case None => ""
    case Some(sp) =>
      var r := s[sp.start..sp.end];
      assert r[..|open|] == s[sp.start..sp.start + |open|];
      assert r[|r| - |close|..] == s[sp.end - |close|..sp.end];
      r
  }

  /** Go's strings.TrimPrefix. */
  function TrimPrefix(s: string, prefix: string): (r: string)
    ensures if |prefix| <= |s| && s[..|prefix|] == prefix then prefix + r == s else r == s
  {
    if |prefix| <= |s| && s[..|prefix|] == prefix then s[|prefix|..] else s
  }

  /** Go's strings.TrimSuffix. */
  function TrimSuffix(s: string, suffix: string): (r: string)
    ensures if |suffix| <= |s| && s[|s| - |suffix|..] == suffix then r + suffix == s else r == s
  {
    if |suffix| <= |s| && s[|s| - |suffix|..] == suffix then s[..|s| - |suffix|] else s
  }

  /**
   * The white space strings.TrimSpace removes when every character is one
   * byte: Go's ASCII space set.
   */
  predicate IsSpace(c: char)
  {
    c == ' ' || c == '\t' || c == '\n' || c == '\r' || c == '\U{000B}' || c == '\U{000C}'
  }

  /** The number of white-space characters that start `s`. */
  function LeadingSpaces(s: string): (n: nat)
    ensures n <= |s|
    ensures forall k :: 0 <= k < n ==> IsSpace(s[k])
    ensures n < |s| ==> !IsSpace(s[n])
  {
    if |s| > 0 && IsSpace(s[0]) then 1 + LeadingSpaces(s[1..]) else 0
  }

  /** The number of white-space characters that end `s`. */
  function TrailingSpaces(s: string): (n: nat)
    ensures n <= |s|
    ensures forall k :: |s| - n <= k < |s| ==> IsSpace(s[k])
    ensures n < |s| ==> !IsSpace(s[|s| - n - 1])
  {
    if |s| > 0 && IsSpace(s[|s| - 1]) then 1 + TrailingSpaces(s[..|s| - 1]) else 0
  }

  /**
   * Go's strings.TrimSpace: `s` with its leading and trailing white space removed.
   * The result is the infix `s[i..j]` such that everything outside it is white
   * space and it neither starts nor ends with white space.
   */
  function TrimSpace(s: string): (r: string)
    ensures exists i, j ::
              && 0 <= i <= j <= |s| && r == s[i..j]
              && (forall k :: 0 <= k < i ==> IsSpace(s[k]))
              && (forall k :: j <= k < |s| ==> IsSpace(s[k]))
    ensures r != [] ==> !IsSpace(r[0]) && !IsSpace(r[|r| - 1])
  {
    var i := LeadingSpaces(s);
    var t := s[i..];
    var j := i + |t| - TrailingSpaces(t);
    assert t[..|t| - TrailingSpaces(t)] == s[i..j];
    s[i..j]
  }

  /** The digit character for `d`. */
  function Digit(d: nat): (c: char)
    requires d < 10
    ensures '0' <= c <= '9'
  {
    "0123456789"[d]
  }

  /** The value of a digit character. */
  function DigitValue(c: char): (d: nat)
    requires '0' <= c <= '9'
    ensures d < 10
  {
    (c as int - '0' as int) as nat
  }

  /** The value of a decimal numeral. */
  function DecimalValue(s: string): nat
    requires forall k :: 0 <= k < |s| ==> '0' <= s[k] <= '9'
  {
    if s == [] then 0 else 10 * DecimalValue(s[..|s| - 1]) + DigitValue(s[|s| - 1])
  }

  /** fmt's `%v` of a non-negative integer: its decimal digits, with no leading zero. */
  function Decimal(n: nat): (s: string)
    ensures |s| > 0 && forall k :: 0 <= k < |s| ==> '0' <= s[k] <= '9'
    ensures |s| > 1 ==> s[0] != '0'
  {
    if n < 10 then [Digit(n)] else Decimal(n / 10) + [Digit(n % 10)]
  }

  /** Reading the decimal rendering of `n` gives back `n`. */
  lemma {:induction false} DecimalRoundTrip(n: nat)
    ensures DecimalValue(Decimal(n)) == n
  {
    var s := Decimal(n);
    if n >= 10 {
      DecimalRoundTrip(n / 10);
      assert s[..|s| - 1] == Decimal(n / 10);
    }
  }
}
