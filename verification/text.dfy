/**
 * The library text routines the two parsers lean on: a decimal-digit test,
 * decimal conversion (strconv.Atoi), and splitting on a separator
 * (strings.Split).  Digits are the ASCII digits '0' to '9'.
 */
module Text {
  import opened Wrappers

  predicate IsDigit(c: char) {
    '0' <= c <= '9'
  }

  predicate AllDigits(s: string) {
    forall i | 0 <= i < |s| :: IsDigit(s[i])
  }

  function Pow10(n: nat): (r: nat)
    ensures r >= 1
  {
    if n == 0 then 1 else 10 * Pow10(n - 1)
  }

  /** The value of a run of decimal digits, most significant digit first. */
  function DecimalValue(ds: string): (n: nat)
    requires AllDigits(ds)
    ensures n < Pow10(|ds|)
  {
    if ds == [] then 0
    else DecimalValue(ds[..|ds| - 1]) * 10 + (ds[|ds| - 1] as int - '0' as int)
  }

  /**
   * strconv.Atoi: an optional '+' or '-' followed by one or more digits;
   * anything else, the empty string included, is a syntax error (None).
   */
  function Atoi(s: string): (r: Option<int>)
    ensures r.Some? <==> ((s != [] && AllDigits(s))
                          || (|s| >= 2 && (s[0] == '+' || s[0] == '-') && AllDigits(s[1..])))
    ensures r.Some? ==> s != [] && IsDigit(s[|s| - 1])
    ensures r.Some? && r.value < 0 ==> s[0] == '-'
  {
    if s != [] && (s[0] == '+' || s[0] == '-') then
      var digits := s[1..];
      if digits != [] && AllDigits(digits) then
        Some(if s[0] == '-' then 0 - DecimalValue(digits) else DecimalValue(digits))
      else None
    else if s != [] && AllDigits(s) then Some(DecimalValue(s))
    else None
  }

  /**
   * Atoi accepts every non-empty digit run, with or without a sign, at its
   * decimal value; with Atoi's own contract this fixes every result.
   */
  lemma AtoiOfDigits(ds: string)
    requires ds != [] && AllDigits(ds)
    ensures Atoi(ds) == Some(DecimalValue(ds))
    ensures Atoi(['+'] + ds) == Some(DecimalValue(ds))
    ensures Atoi(['-'] + ds) == Some(0 - DecimalValue(ds))
  {
    assert (['+'] + ds)[1..] == ds;
    assert (['-'] + ds)[1..] == ds;
  }

  /** strings.HasPrefix(s, string([c])). */
  predicate StartsWith(s: string, c: char)
    ensures StartsWith(s, c) <==> |s| >= 1 && s[..1] == [c]
  {
    s != [] && s[0] == c
  }

  /** strings.Split(s, string([sep])): the maximal sep-free pieces of s, in order. */
  function Split(s: string, sep: char): (parts: seq<string>)
    ensures |parts| >= 1
    ensures forall i | 0 <= i < |parts| :: sep !in parts[i]
  {
    if s == [] then [[]]
    else
      var rest := Split(s[1..], sep);
      if s[0] == sep then [[]] + rest
      else [[s[0]] + rest[0]] + rest[1..]
  }

  /** strings.Join(parts, string([sep])). */
  function Join(parts: seq<string>, sep: char): (s: string)
    requires |parts| >= 1
    ensures |s| >= |parts| - 1
  {
    if |parts| == 1 then parts[0] else parts[0] + [sep] + Join(parts[1..], sep)
  }

  /** Splitting loses nothing: joining the pieces back gives the input. */
  lemma {:induction false} JoinSplit(s: string, sep: char)
    ensures Join(Split(s, sep), sep) == s
  {
    if s != [] {
      var rest := Split(s[1..], sep);
      JoinSplit(s[1..], sep);
      if s[0] == sep {
        assert Split(s, sep)[1..] == rest;
      } else {
        var parts := Split(s, sep);
        if |rest| == 1 {
          assert parts == [[s[0]] + rest[0]];
        } else {
          assert parts[1..] == rest[1..];
          assert Join(rest, sep) == rest[0] + [sep] + Join(rest[1..], sep);
        }
      }
    }
  }

  /** A separator-free piece followed by the separator splits off as the first piece. */
  lemma {:induction false} SplitAfterPiece(a: string, b: string, sep: char)
    requires sep !in a
    ensures Split(a + [sep] + b, sep) == [a] + Split(b, sep)
    decreases |a|
  {
    if a == [] {
      assert [] + [sep] + b == [sep] + b;
      assert ([sep] + b)[1..] == b;
    } else {
      var s := a + [sep] + b;
      assert s[1..] == a[1..] + [sep] + b;
      SplitAfterPiece(a[1..], b, sep);
      assert [s[0]] + a[1..] == a;
    }
  }

  /** Splitting undoes joining separator-free pieces. */
  lemma {:induction false} SplitJoin(parts: seq<string>, sep: char)
    requires |parts| >= 1
    requires forall i | 0 <= i < |parts| :: sep !in parts[i]
    ensures Split(Join(parts, sep), sep) == parts
  {
    if |parts| == 1 {
      SplitWithoutSeparator(parts[0], sep);
    } else {
      SplitJoin(parts[1..], sep);
      SplitAfterPiece(parts[0], Join(parts[1..], sep), sep);
      assert [parts[0]] + parts[1..] == parts;
    }
  }

  /** A string with no separator is a single piece, and only such a string is. */
  lemma {:induction false} SplitWithoutSeparator(s: string, sep: char)
    ensures sep !in s ==> Split(s, sep) == [s]
    ensures |Split(s, sep)| == 1 ==> sep !in s
  {
    if s != [] {
      SplitWithoutSeparator(s[1..], sep);
      assert s == [s[0]] + s[1..];
    }
  }
}
