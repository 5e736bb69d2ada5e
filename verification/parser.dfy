/**
 * The interval parser of parser.go: an expression of '/'-separated segments
 * in the shape Rn/start/period/end, where every part may be missing.  A
 * segment that starts with 'R' is a repeat count, one that starts with 'P'
 * a period, and anything else a timestamp.
 *
 * The timestamp parser (time.Parse with the RFC 3339 layout) is a foreign
 * library; it is passed in as a total function from text to an optional
 * instant.
 */
module Intervals {
  import opened Wrappers
  import opened Text
  import opened Periods

  /** A point in time, as nanoseconds since the Unix epoch. */
  datatype Instant = Instant(unixNanos: int)

  /** Go's zero time.Time: January 1 of year 1, 00:00:00 UTC. */
  const ZeroTime := Instant(-62135596800 * 1_000_000_000)

  /** The parsed expression (parser.go:12-17); a nil Period pointer is None. */
  datatype Info = Info(start: Instant, end: Instant, repeats: int, period: Option<Period>)

  /** One variant per error Parse reports. */
  datatype ParseError =
    | InvalidInstant(text: string)      // the timestamp parser's own error, single-segment form
    | RepeatNotFirst                    // an 'R' segment after the first
    | BadRepeatCount(text: string)      // the text after 'R' is not an integer
    | NonPositiveRepeat                 // the repeat count is zero or negative
    | DuplicatePeriod                   // a second 'P' segment
    | BadPeriod(cause: PeriodError)     // the period scanner's error, wrapped
    | BadTimeComponent(text: string)    // a timestamp segment that does not parse
    | DuplicateEnd                      // a second end timestamp

  datatype SegmentKind = RepeatSegment | PeriodSegment | TimeSegment

  /** A segment is classified by its first rune: 'R' first, then 'P', else a timestamp. */
  function KindOf(v: string): (kind: SegmentKind)
    ensures kind == RepeatSegment <==> StartsWith(v, 'R')
    ensures kind == PeriodSegment <==> StartsWith(v, 'P')
    ensures kind == TimeSegment <==> v == [] || (v[0] != 'R' && v[0] != 'P')
  {
    if StartsWith(v, 'R') then RepeatSegment
    else if StartsWith(v, 'P') then PeriodSegment
    else TimeSegment
  }

  /** The i-th segment would set Start if it is a timestamp: first, or second after a repeat. */
  predicate BindsStart(segs: seq<string>, i: nat)
    requires i < |segs|
    ensures BindsStart(segs, i) ==> i <= 1
    ensures i == 1 ==> (BindsStart(segs, i) <==> StartsWith(segs[0], 'R'))
  {
    i == 0 || (i == 1 && KindOf(segs[0]) == RepeatSegment)
  }

  /** The i-th segment is a timestamp that sets End. */
  predicate IsEnd(segs: seq<string>, i: nat)
    requires i < |segs|
    ensures IsEnd(segs, i) ==> i >= 1 && KindOf(segs[i]) == TimeSegment
    ensures i >= 2 ==> (IsEnd(segs, i) <==> KindOf(segs[i]) == TimeSegment)
  {
    KindOf(segs[i]) == TimeSegment && !BindsStart(segs, i)
  }

  /** The i-th segment is a period: it starts with 'P'. */
  predicate IsPeriod(segs: seq<string>, i: nat)
    requires i < |segs|
    ensures IsPeriod(segs, i) <==> StartsWith(segs[i], 'P')
  {
    KindOf(segs[i]) == PeriodSegment
  }

  /** durationSet on reaching segment i. */
  predicate HasPeriodBefore(segs: seq<string>, i: nat)
    requires i <= |segs|
  {
    exists j | 0 <= j < i :: IsPeriod(segs, j)
  }

  /** endSet on reaching segment i. */
  predicate HasEndBefore(segs: seq<string>, i: nat)
    requires i <= |segs|
  {
    exists j | 0 <= j < i :: IsEnd(segs, j)
  }

  /** The text after the leading 'R' of a repeat segment. */
  function CountText(v: string): (c: string)
    ensures v != [] ==> v == [v[0]] + c
    ensures v == [] ==> c == []
  {
    if v == [] then [] else v[1..]
  }

  /**
   * The loop accepts segment i, given that every earlier segment was
   * accepted: a repeat count comes first and is a positive integer, a period
   * is the first one and scans, and a timestamp parses and is not a second
   * end.
   */
  predicate SegmentAccepted(segs: seq<string>, i: nat, parseInstant: string -> Option<Instant>)
    requires i < |segs|
  {
    && (StartsWith(segs[i], 'R') ==> i == 0 && Atoi(CountText(segs[i])).Some? && Atoi(CountText(segs[i])).value > 0)
    && (IsPeriod(segs, i) ==> !HasPeriodBefore(segs, i) && Scan(segs[i]).Ok?)
    && (KindOf(segs[i]) == TimeSegment ==>
          parseInstant(segs[i]).Some? && (IsEnd(segs, i) ==> !HasEndBefore(segs, i)))
  }

  /**
   * What goes wrong at segment i of a multi-segment expression, if anything,
   * given that every earlier segment was accepted.
   */
  function SegmentError(segs: seq<string>, i: nat, parseInstant: string -> Option<Instant>): (e: Option<ParseError>)
    requires i < |segs|
    ensures e.Some? ==> !e.value.InvalidInstant?
    ensures e == Some(RepeatNotFirst) <==> i != 0 && StartsWith(segs[i], 'R')
    ensures e == Some(DuplicatePeriod) <==> IsPeriod(segs, i) && HasPeriodBefore(segs, i)
    ensures e == Some(DuplicateEnd) <==> IsEnd(segs, i) && HasEndBefore(segs, i) && parseInstant(segs[i]).Some?
    ensures e.None? <==> SegmentAccepted(segs, i, parseInstant)
    ensures i == 0 && StartsWith(segs[i], 'R') && Atoi(CountText(segs[i])).None? ==>
              e == Some(BadRepeatCount(CountText(segs[i])))
    ensures i == 0 && StartsWith(segs[i], 'R') && Atoi(CountText(segs[i])).Some? && Atoi(CountText(segs[i])).value <= 0 ==>
              e == Some(NonPositiveRepeat)
    ensures IsPeriod(segs, i) && !HasPeriodBefore(segs, i) && Scan(segs[i]).Err? ==>
              e == Some(BadPeriod(Scan(segs[i]).error))
    ensures KindOf(segs[i]) == TimeSegment && parseInstant(segs[i]).None? ==>
              e == Some(BadTimeComponent(segs[i]))
  {
    var v := segs[i];
    match KindOf(v)
    case RepeatSegment =>
      if i != 0 then Some(RepeatNotFirst)
      else if Atoi(CountText(v)).None? then Some(BadRepeatCount(CountText(v)))
      else if Atoi(CountText(v)).value <= 0 then Some(NonPositiveRepeat)
      else None
    case PeriodSegment =>
      if HasPeriodBefore(segs, i) then Some(DuplicatePeriod)
      else if Scan(v).Err? then Some(BadPeriod(Scan(v).error))
      else None
    case TimeSegment =>
      if parseInstant(v).None? then Some(BadTimeComponent(v))
      else if !BindsStart(segs, i) && HasEndBefore(segs, i) then Some(DuplicateEnd)
      else None
  }

  /** The first segment at or after from that fails. */
  function FirstSegmentError(segs: seq<string>, from: nat, parseInstant: string -> Option<Instant>): (k: Option<nat>)
    requires from <= |segs|
    ensures k.Some? ==> from <= k.value < |segs| && SegmentError(segs, k.value, parseInstant).Some?
    ensures forall j | from <= j < |segs| && (k.None? || j < k.value) :: SegmentError(segs, j, parseInstant).None?
    decreases |segs| - from
  {
    if from == |segs| then None
    else if SegmentError(segs, from, parseInstant).Some? then Some(from)
    else FirstSegmentError(segs, from + 1, parseInstant)
  }

  /** Start after the first n segments: the last accepted start timestamp, else the zero time. */
  function StartOf(segs: seq<string>, n: nat, parseInstant: string -> Option<Instant>): (t: Instant)
    requires n <= |segs|
    ensures t == ZeroTime
         || (exists j | 0 <= j < n && j <= 1 && BindsStart(segs, j) && KindOf(segs[j]) == TimeSegment
               :: parseInstant(segs[j]) == Some(t))
  {
    if n == 0 then ZeroTime
    else if KindOf(segs[n - 1]) == TimeSegment && BindsStart(segs, n - 1) && parseInstant(segs[n - 1]).Some? then
      parseInstant(segs[n - 1]).value
    else StartOf(segs, n - 1, parseInstant)
  }

  /** End after the first n segments: the last accepted end timestamp, else the zero time. */
  function EndOf(segs: seq<string>, n: nat, parseInstant: string -> Option<Instant>): (t: Instant)
    requires n <= |segs|
    ensures t == ZeroTime || (exists j | 0 <= j < n && IsEnd(segs, j) :: parseInstant(segs[j]) == Some(t))
  {
    if n == 0 then ZeroTime
    else if IsEnd(segs, n - 1) && parseInstant(segs[n - 1]).Some? then parseInstant(segs[n - 1]).value
    else EndOf(segs, n - 1, parseInstant)
  }

  /** Period after the first n segments: the last accepted period segment, else none. */
  function PeriodOf(segs: seq<string>, n: nat): (p: Option<Period>)
    requires n <= |segs|
    ensures p.Some? ==> p.value.NonNegative()
    ensures p.Some? ==> exists j | 0 <= j < n && IsPeriod(segs, j) :: Scan(segs[j]) == Ok(p.value)
  {
    if n == 0 then None
    else if IsPeriod(segs, n - 1) && Scan(segs[n - 1]).Ok? then Some(Scan(segs[n - 1]).value)
    else PeriodOf(segs, n - 1)
  }

  /** Repeats after the first n segments: the count of a leading repeat segment, else 0. */
  function RepeatsOf(segs: seq<string>, n: nat): (r: int)
    requires n <= |segs|
    ensures r == 0 || (n > 0 && StartsWith(segs[0], 'R') && Atoi(CountText(segs[0])) == Some(r))
  {
    if n > 0 && KindOf(segs[0]) == RepeatSegment then Atoi(CountText(segs[0])).GetOr(0) else 0
  }

  /** The Info built from the first n segments. */
  function Built(segs: seq<string>, n: nat, parseInstant: string -> Option<Instant>): (info: Info)
    requires n <= |segs|
    ensures info.period.Some? ==> info.period.value.NonNegative()
    ensures info.repeats != 0 ==> n > 0 && StartsWith(segs[0], 'R')
    ensures n == 0 ==> info == Info(ZeroTime, ZeroTime, 0, None)
  {
    Info(StartOf(segs, n, parseInstant), EndOf(segs, n, parseInstant), RepeatsOf(segs, n), PeriodOf(segs, n))
  }

  /**
   * The outcome of parsing an expression.  Without a '/', the whole text is a
   * timestamp and the Info comes back even beside an error; otherwise the
   * first failing segment aborts with no Info.
   */
  function Interpret(expression: string, parseInstant: string -> Option<Instant>): (r: (Option<Info>, Option<ParseError>))
    ensures r.1.None? ==> r.0.Some?
    ensures |Split(expression, '/')| > 1 ==> (r.0.None? <==> r.1.Some?)
    ensures |Split(expression, '/')| == 1 ==> r.0.Some? && (r.1.Some? <==> parseInstant(expression).None?)
  {
    var segs := Split(expression, '/');
    if |segs| == 1 then
      var t := parseInstant(expression);
      (Some(Info(t.GetOr(ZeroTime), ZeroTime, 0, None)),
       if t.None? then Some(InvalidInstant(expression)) else None)
    else Outcome(segs, parseInstant)
  }

  /** The outcome over two or more segments: the first failing one aborts, else the built Info. */
  function Outcome(segs: seq<string>, parseInstant: string -> Option<Instant>): (r: (Option<Info>, Option<ParseError>))
    ensures r.0.None? <==> r.1.Some?
  {
    match FirstSegmentError(segs, 0, parseInstant)
    case Some(k) => (None, SegmentError(segs, k, parseInstant))
    case None => (Some(Built(segs, |segs|, parseInstant)), None)
  }

  /** Parse (parser.go:20-88): a lone timestamp, or the segment loop. */
  method Parse(expression: string, parseInstant: string -> Option<Instant>)
    returns (info: Option<Info>, err: Option<ParseError>)
    ensures (info, err) == Interpret(expression, parseInstant)
  {
    var split := Split(expression, '/');
    if |split| == 1 {
      var t := parseInstant(expression);
      info := Some(Info(t.GetOr(ZeroTime), ZeroTime, 0, None));
      err := if t.None? then Some(InvalidInstant(expression)) else None;
      return;
    }
    info, err := ParseSegments(split, parseInstant);
  }

  /** The segment loop of Parse (parser.go:30-86), with its three flags and early returns. */
  method ParseSegments(split: seq<string>, parseInstant: string -> Option<Instant>)
    returns (info: Option<Info>, err: Option<ParseError>)
    ensures (info, err) == Outcome(split, parseInstant)
  {

    var endSet := false;
    var repeatsSet := false;
    var durationSet := false;
    var ret := Info(ZeroTime, ZeroTime, 0, None);

    for i := 0 to |split|
      invariant forall j | 0 <= j < i :: SegmentError(split, j, parseInstant).None?
      invariant endSet == HasEndBefore(split, i)
      invariant repeatsSet == (i > 0 && KindOf(split[0]) == RepeatSegment)
      invariant durationSet == HasPeriodBefore(split, i)
      invariant ret == Built(split, i, parseInstant)
    {
      FlagsStep(split, i);
      BuiltStep(split, i, parseInstant);
      var v := split[i];
      if StartsWith(v, 'R') {
        if i != 0 {
          SegmentFailure(split, parseInstant, i);
          return None, Some(RepeatNotFirst);
        }
        var r := Atoi(v[1..]);
        if r.None? {
          SegmentFailure(split, parseInstant, i);
          return None, Some(BadRepeatCount(v[1..]));
        }
        if r.value <= 0 {
          SegmentFailure(split, parseInstant, i);
          return None, Some(NonPositiveRepeat);
        }
        ret := ret.(repeats := r.value);
        repeatsSet := true;
        continue;
      }

      if StartsWith(v, 'P') {
        if durationSet {
          SegmentFailure(split, parseInstant, i);
          return None, Some(DuplicatePeriod);
        }
        var p := PeriodFromString(v);
        if p.Err? {
          SegmentFailure(split, parseInstant, i);
          return None, Some(BadPeriod(p.error));
        }
        ret := ret.(period := Some(p.value));
        durationSet := true;
        continue;
      }

      var t := parseInstant(v);
      if t.None? {
        SegmentFailure(split, parseInstant, i);
        return None, Some(BadTimeComponent(v));
      }

      if i == 0 || (i == 1 && repeatsSet) {
        ret := ret.(start := t.value);
        continue;
      } else if endSet {
        SegmentFailure(split, parseInstant, i);
        return None, Some(DuplicateEnd);
      }

      ret := ret.(end := t.value);
      endSet := true;
    }

    return Some(ret), None;
  }

  /** The flags grow by one segment at a time. */
  lemma FlagsStep(segs: seq<string>, i: nat)
    requires i < |segs|
    ensures HasPeriodBefore(segs, i + 1) <==> HasPeriodBefore(segs, i) || IsPeriod(segs, i)
    ensures HasEndBefore(segs, i + 1) <==> HasEndBefore(segs, i) || IsEnd(segs, i)
  {
  }

  /** What one more segment adds to the Info. */
  lemma BuiltStep(segs: seq<string>, i: nat, parseInstant: string -> Option<Instant>)
    requires i < |segs|
    ensures KindOf(segs[i]) == RepeatSegment ==>
      Built(segs, i + 1, parseInstant) ==
        if i == 0 then Built(segs, i, parseInstant).(repeats := Atoi(CountText(segs[i])).GetOr(0))
        else Built(segs, i, parseInstant)
    ensures KindOf(segs[i]) == PeriodSegment ==>
      Built(segs, i + 1, parseInstant) ==
        if Scan(segs[i]).Ok? then Built(segs, i, parseInstant).(period := Some(Scan(segs[i]).value))
        else Built(segs, i, parseInstant)
    ensures KindOf(segs[i]) == TimeSegment && parseInstant(segs[i]).Some? ==>
      Built(segs, i + 1, parseInstant) ==
        if BindsStart(segs, i) then Built(segs, i, parseInstant).(start := parseInstant(segs[i]).value)
        else Built(segs, i, parseInstant).(end := parseInstant(segs[i]).value)
  {
  }

  /** The first failing segment decides the error, and no Info is returned. */
  lemma SegmentFailure(segs: seq<string>, parseInstant: string -> Option<Instant>, k: nat)
    requires k < |segs|
    requires forall j | 0 <= j < k :: SegmentError(segs, j, parseInstant).None?
    requires SegmentError(segs, k, parseInstant).Some?
    ensures Outcome(segs, parseInstant) == (None, SegmentError(segs, k, parseInstant))
  {
    var first := FirstSegmentError(segs, 0, parseInstant);
    assert first == Some(k);
  }

  /**
   * A multi-segment expression parses without error exactly when every
   * segment is accepted, and then the Info is the one built from all of them.
   */
  lemma ParseAccepts(expression: string, parseInstant: string -> Option<Instant>)
    requires |Split(expression, '/')| > 1
    ensures var segs := Split(expression, '/');
      Interpret(expression, parseInstant).1.None? <==>
        forall i | 0 <= i < |segs| :: SegmentAccepted(segs, i, parseInstant)
    ensures var segs := Split(expression, '/');
      (forall i | 0 <= i < |segs| :: SegmentAccepted(segs, i, parseInstant)) ==>
        Interpret(expression, parseInstant) == (Some(Built(segs, |segs|, parseInstant)), None)
  {
    var segs := Split(expression, '/');
    var first := FirstSegmentError(segs, 0, parseInstant);
    if first.Some? {
      assert !SegmentAccepted(segs, first.value, parseInstant);
    } else {
      forall i | 0 <= i < |segs|
        ensures SegmentAccepted(segs, i, parseInstant)
      {
        assert SegmentError(segs, i, parseInstant).None?;
      }
    }
  }

  // ---------------------------------------------------------------------------
  // Single-segment expressions
  // ---------------------------------------------------------------------------

  /**
   * Without a '/', the expression is one timestamp: it becomes Start, the
   * rest of the Info stays zero, and the Info is returned even when the
   * timestamp fails to parse.
   */
  lemma ParseWithoutSlash(expression: string, parseInstant: string -> Option<Instant>)
    requires '/' !in expression
    ensures Interpret(expression, parseInstant).0 == Some(Info(parseInstant(expression).GetOr(ZeroTime), ZeroTime, 0, None))
    ensures Interpret(expression, parseInstant).1.Some? <==> parseInstant(expression).None?
  {
    SplitWithoutSeparator(expression, '/');
  }

  // ---------------------------------------------------------------------------
  // Positional rules
  // ---------------------------------------------------------------------------

  /** A repeat segment anywhere but first is rejected once the segments before it were accepted. */
  lemma RepeatMustBeFirst(expression: string, parseInstant: string -> Option<Instant>, k: nat)
    requires 0 < k < |Split(expression, '/')|
    requires StartsWith(Split(expression, '/')[k], 'R')
    requires forall j | 0 <= j < k :: SegmentError(Split(expression, '/'), j, parseInstant).None?
    ensures Interpret(expression, parseInstant) == (None, Some(RepeatNotFirst))
  {
    SegmentFailure(Split(expression, '/'), parseInstant, k);
  }

  /** A second period segment is rejected before its text is looked at. */
  lemma SecondPeriodRejected(expression: string, parseInstant: string -> Option<Instant>, j: nat, k: nat)
    requires j < k < |Split(expression, '/')|
    requires IsPeriod(Split(expression, '/'), j) && IsPeriod(Split(expression, '/'), k)
    requires forall i | 0 <= i < k :: SegmentError(Split(expression, '/'), i, parseInstant).None?
    ensures Interpret(expression, parseInstant) == (None, Some(DuplicatePeriod))
  {
    assert HasPeriodBefore(Split(expression, '/'), k);
    SegmentFailure(Split(expression, '/'), parseInstant, k);
  }

  /** A second end timestamp is rejected, once it parses. */
  lemma SecondEndRejected(expression: string, parseInstant: string -> Option<Instant>, j: nat, k: nat)
    requires j < k < |Split(expression, '/')|
    requires IsEnd(Split(expression, '/'), j) && IsEnd(Split(expression, '/'), k)
    requires parseInstant(Split(expression, '/')[k]).Some?
    requires forall i | 0 <= i < k :: SegmentError(Split(expression, '/'), i, parseInstant).None?
    ensures Interpret(expression, parseInstant) == (None, Some(DuplicateEnd))
  {
    assert HasEndBefore(Split(expression, '/'), k);
    SegmentFailure(Split(expression, '/'), parseInstant, k);
  }

  // ---------------------------------------------------------------------------
  // The repeat count
  // ---------------------------------------------------------------------------

  /**
   * A leading repeat segment must hold an integer (optional sign, one or
   * more digits) greater than zero.
   */
  lemma LeadingRepeatCount(count: string, rest: string, parseInstant: string -> Option<Instant>)
    requires '/' !in count
    ensures Atoi(count).None? ==>
              Interpret(['R'] + count + ['/'] + rest, parseInstant) == (None, Some(BadRepeatCount(count)))
    ensures Atoi(count).Some? && Atoi(count).value <= 0 ==>
              Interpret(['R'] + count + ['/'] + rest, parseInstant) == (None, Some(NonPositiveRepeat))
  {
    var expression := ['R'] + count + ['/'] + rest;
    assert '/' !in ['R'] + count;
    SplitAfterPiece(['R'] + count, rest, '/');
    assert expression == (['R'] + count) + ['/'] + rest;
    var segs := Split(expression, '/');
    assert segs[0] == ['R'] + count;
    assert CountText(segs[0]) == count;
    if Atoi(count).None? || Atoi(count).value <= 0 {
      SegmentFailure(segs, parseInstant, 0);
    }
  }

  /**
   * "R/..." and "Rw/..." (parser_test.go:38-42) are rejected: a count with no
   * digit in it is not an integer, and no count stands for unbounded repeats.
   */
  lemma DigitlessRepeatRejected(count: string, rest: string, parseInstant: string -> Option<Instant>)
    requires forall i | 0 <= i < |count| :: count[i] != '/' && !IsDigit(count[i])
    ensures Interpret(['R'] + count + ['/'] + rest, parseInstant) == (None, Some(BadRepeatCount(count)))
  {
    assert Atoi(count).None? by {
      if |count| >= 1 {
        assert !IsDigit(count[0]);
      }
      if |count| >= 2 {
        assert !IsDigit(count[1..][0]);
      }
    }
    LeadingRepeatCount(count, rest, parseInstant);
  }

  /** "R-1/..." is rejected: the count is not greater than zero (parser_test.go:44-48). */
  lemma NegativeRepeatRejected(rest: string, parseInstant: string -> Option<Instant>)
    ensures Interpret("R-1/" + rest, parseInstant) == (None, Some(NonPositiveRepeat))
  {
    AtoiOfDigits("1");
    LeadingRepeatCount("-1", rest, parseInstant);
    assert ['R'] + "-1" + ['/'] + rest == "R-1/" + rest;
  }

  // ---------------------------------------------------------------------------
  // What a successful parse holds
  // ---------------------------------------------------------------------------

  /**
   * A successful multi-segment parse has a repeat count of 0 or at least 1,
   * one only from a leading 'R', and then it is the integer after the 'R'.
   */
  lemma ParsedRepeats(expression: string, parseInstant: string -> Option<Instant>)
    requires |Split(expression, '/')| > 1 && Interpret(expression, parseInstant).1.None?
    ensures Interpret(expression, parseInstant).0.value.repeats == 0
         || Interpret(expression, parseInstant).0.value.repeats >= 1
    ensures Interpret(expression, parseInstant).0.value.repeats >= 1
        <==> StartsWith(Split(expression, '/')[0], 'R')
    ensures StartsWith(Split(expression, '/')[0], 'R') ==>
              Atoi(CountText(Split(expression, '/')[0]))
              == Some(Interpret(expression, parseInstant).0.value.repeats)
  {
    var segs := Split(expression, '/');
    assert FirstSegmentError(segs, 0, parseInstant).None?;
    assert SegmentError(segs, 0, parseInstant).None?;
  }

  /** With every segment before n accepted, the Period is that of the one period segment among them. */
  lemma PeriodOfAccepted(segs: seq<string>, n: nat, parseInstant: string -> Option<Instant>)
    requires n <= |segs|
    requires forall i | 0 <= i < n :: SegmentError(segs, i, parseInstant).None?
    ensures PeriodOf(segs, n).Some? <==> HasPeriodBefore(segs, n)
    ensures forall j | 0 <= j < n && IsPeriod(segs, j) :: Scan(segs[j]) == Ok(PeriodOf(segs, n).value)
    ensures forall j, k | 0 <= j < k < n :: !(IsPeriod(segs, j) && IsPeriod(segs, k))
  {
    AcceptedPeriodsUnique(segs, n, parseInstant);
    AcceptedPeriodValue(segs, n, parseInstant);
  }

  /** Over accepted segments no two are period segments. */
  lemma {:induction false} AcceptedPeriodsUnique(segs: seq<string>, n: nat, parseInstant: string -> Option<Instant>)
    requires n <= |segs|
    requires forall i | 0 <= i < n :: SegmentError(segs, i, parseInstant).None?
    ensures forall j, k | 0 <= j < k < n :: !(IsPeriod(segs, j) && IsPeriod(segs, k))
  {
    if n > 0 {
      AcceptedPeriodsUnique(segs, n - 1, parseInstant);
      assert SegmentError(segs, n - 1, parseInstant).None?;
      if IsPeriod(segs, n - 1) {
        assert !HasPeriodBefore(segs, n - 1);
      }
    }
  }

  /** Over accepted segments Period is present exactly when a period segment was seen, as its scan. */
  lemma {:induction false} AcceptedPeriodValue(segs: seq<string>, n: nat, parseInstant: string -> Option<Instant>)
    requires n <= |segs|
    requires forall i | 0 <= i < n :: SegmentError(segs, i, parseInstant).None?
    ensures PeriodOf(segs, n).Some? <==> HasPeriodBefore(segs, n)
    ensures forall j | 0 <= j < n && IsPeriod(segs, j) :: Scan(segs[j]) == Ok(PeriodOf(segs, n).value)
  {
    if n > 0 {
      AcceptedPeriodValue(segs, n - 1, parseInstant);
      FlagsStep(segs, n - 1);
      PeriodStep(segs, n - 1, parseInstant);
    }
  }

  /** One accepted segment: a period segment is the first one and sets Period; any other keeps it. */
  lemma PeriodStep(segs: seq<string>, m: nat, parseInstant: string -> Option<Instant>)
    requires m < |segs| && SegmentError(segs, m, parseInstant).None?
    ensures IsPeriod(segs, m) ==>
              !HasPeriodBefore(segs, m) && Scan(segs[m]).Ok? && PeriodOf(segs, m + 1) == Some(Scan(segs[m]).value)
    ensures !IsPeriod(segs, m) ==> PeriodOf(segs, m + 1) == PeriodOf(segs, m)
  {
  }

  /**
   * A successful multi-segment parse holds at most one period segment, and
   * Period is present exactly when there is one, as that segment scans.
   */
  lemma ParsedPeriod(expression: string, parseInstant: string -> Option<Instant>)
    requires |Split(expression, '/')| > 1 && Interpret(expression, parseInstant).1.None?
    ensures var segs := Split(expression, '/');
      Interpret(expression, parseInstant).0.value.period.Some? <==> exists j | 0 <= j < |segs| :: IsPeriod(segs, j)
    ensures var segs := Split(expression, '/');
      forall j | 0 <= j < |segs| && IsPeriod(segs, j) ::
        Scan(segs[j]) == Ok(Interpret(expression, parseInstant).0.value.period.value)
    ensures var segs := Split(expression, '/');
      forall j, k | 0 <= j < k < |segs| :: !(IsPeriod(segs, j) && IsPeriod(segs, k))
  {
    var segs := Split(expression, '/');
    assert FirstSegmentError(segs, 0, parseInstant).None?;
    PeriodOfAccepted(segs, |segs|, parseInstant);
  }

  /** With every segment before n accepted, End is the instant of the one end timestamp among them. */
  lemma {:induction false} EndOfAccepted(segs: seq<string>, n: nat, parseInstant: string -> Option<Instant>)
    requires n <= |segs|
    requires forall i | 0 <= i < n :: SegmentError(segs, i, parseInstant).None?
    ensures !HasEndBefore(segs, n) ==> EndOf(segs, n, parseInstant) == ZeroTime
    ensures forall j | 0 <= j < n && IsEnd(segs, j) :: parseInstant(segs[j]) == Some(EndOf(segs, n, parseInstant))
    ensures forall j, k | 0 <= j < k < n :: !(IsEnd(segs, j) && IsEnd(segs, k))
  {
    if n > 0 {
      EndOfAccepted(segs, n - 1, parseInstant);
      FlagsStep(segs, n - 1);
      assert SegmentError(segs, n - 1, parseInstant).None?;
      assert IsEnd(segs, n - 1) ==> !HasEndBefore(segs, n - 1);
    }
  }

  /**
   * A successful multi-segment parse holds at most one end timestamp; End is
   * its instant, or the zero time when there is none.
   */
  lemma ParsedEnd(expression: string, parseInstant: string -> Option<Instant>)
    requires |Split(expression, '/')| > 1 && Interpret(expression, parseInstant).1.None?
    ensures var segs := Split(expression, '/');
      (forall j | 0 <= j < |segs| :: !IsEnd(segs, j)) ==> Interpret(expression, parseInstant).0.value.end == ZeroTime
    ensures var segs := Split(expression, '/');
      forall j | 0 <= j < |segs| && IsEnd(segs, j) ::
        parseInstant(segs[j]) == Some(Interpret(expression, parseInstant).0.value.end)
    ensures var segs := Split(expression, '/');
      forall j, k | 0 <= j < k < |segs| :: !(IsEnd(segs, j) && IsEnd(segs, k))
  {
    var segs := Split(expression, '/');
    assert FirstSegmentError(segs, 0, parseInstant).None?;
    EndOfAccepted(segs, |segs|, parseInstant);
  }

  /** Only the first segment, or the second after a repeat, can set Start. */
  lemma {:induction false} StartOfPrefix(segs: seq<string>, n: nat, parseInstant: string -> Option<Instant>)
    requires 2 <= n <= |segs|
    ensures StartOf(segs, n, parseInstant) == StartOf(segs, 2, parseInstant)
  {
    if n > 2 {
      StartOfPrefix(segs, n - 1, parseInstant);
    }
  }

  /**
   * A successful multi-segment parse takes Start from the first segment when
   * it is a timestamp, from the second when a repeat comes first, and
   * otherwise leaves it at the zero time.
   */
  lemma ParsedStart(expression: string, parseInstant: string -> Option<Instant>)
    requires |Split(expression, '/')| > 1 && Interpret(expression, parseInstant).1.None?
    ensures var segs := Split(expression, '/');
      var start := Interpret(expression, parseInstant).0.value.start;
      if KindOf(segs[0]) == TimeSegment then Some(start) == parseInstant(segs[0])
      else if KindOf(segs[0]) == RepeatSegment && KindOf(segs[1]) == TimeSegment then Some(start) == parseInstant(segs[1])
      else start == ZeroTime
  {
    var segs := Split(expression, '/');
    assert FirstSegmentError(segs, 0, parseInstant).None?;
    assert SegmentError(segs, 0, parseInstant).None? && SegmentError(segs, 1, parseInstant).None?;
    StartOfPrefix(segs, |segs|, parseInstant);
    assert StartOf(segs, 1, parseInstant) == if KindOf(segs[0]) == TimeSegment then parseInstant(segs[0]).value else ZeroTime;
  }

  // ---------------------------------------------------------------------------
  // Shapes of multi-segment expressions, and the examples of parser_test.go
  // ---------------------------------------------------------------------------

  /** A leading repeat segment with a positive count is accepted. */
  predicate GoodRepeat(r: string, n: int) {
    '/' !in r && StartsWith(r, 'R') && Atoi(CountText(r)) == Some(n) && n > 0
  }

  /** A timestamp segment that the timestamp parser accepts. */
  predicate GoodTime(a: string, parseInstant: string -> Option<Instant>) {
    '/' !in a && KindOf(a) == TimeSegment && parseInstant(a).Some?
  }

  /** The four segments of Rn/start/period/end are each accepted. */
  lemma RecurringIntervalAccepted(r: string, n: int, a: string, p: string, b: string, parseInstant: string -> Option<Instant>)
    requires GoodRepeat(r, n) && GoodTime(a, parseInstant) && GoodTime(b, parseInstant)
    requires StartsWith(p, 'P') && Scan(p).Ok?
    ensures FirstSegmentError([r, a, p, b], 0, parseInstant).None?
  {
    var segs := [r, a, p, b];
    assert SegmentError(segs, 0, parseInstant).None?;
    assert SegmentError(segs, 1, parseInstant).None?;
    assert !HasPeriodBefore(segs, 2) by {
      assert !IsPeriod(segs, 0) && !IsPeriod(segs, 1);
    }
    assert SegmentError(segs, 2, parseInstant).None?;
    assert !HasEndBefore(segs, 3) by {
      assert !IsEnd(segs, 0) && !IsEnd(segs, 1) && !IsEnd(segs, 2);
    }
    assert SegmentError(segs, 3, parseInstant).None?;
  }

  /**
   * Rn/start/period/end with every part well formed parses to repeats n, the
   * start and end instants, and the scanned period.
   */
  lemma RecurringInterval(r: string, n: int, a: string, p: string, b: string, q: Period,
                          parseInstant: string -> Option<Instant>)
    requires GoodRepeat(r, n) && GoodTime(a, parseInstant) && GoodTime(b, parseInstant)
    requires '/' !in p && StartsWith(p, 'P') && Scan(p) == Ok(q)
    ensures Interpret(Join([r, a, p, b], '/'), parseInstant)
         == (Some(Info(parseInstant(a).value, parseInstant(b).value, n, Some(q))), None)
  {
    var segs := [r, a, p, b];
    SplitJoin(segs, '/');
    RecurringIntervalAccepted(r, n, a, p, b, parseInstant);
    assert StartOf(segs, 2, parseInstant) == parseInstant(a).value;
    StartOfPrefix(segs, 4, parseInstant);
    assert EndOf(segs, 4, parseInstant) == parseInstant(b).value;
    assert PeriodOf(segs, 4) == Some(q);
  }

  /** start/period/end (parser_test.go:85-88): no repeat count. */
  lemma StartPeriodEnd(a: string, p: string, b: string, q: Period, parseInstant: string -> Option<Instant>)
    requires GoodTime(a, parseInstant) && GoodTime(b, parseInstant)
    requires '/' !in p && StartsWith(p, 'P') && Scan(p) == Ok(q)
    ensures Interpret(Join([a, p, b], '/'), parseInstant)
         == (Some(Info(parseInstant(a).value, parseInstant(b).value, 0, Some(q))), None)
  {
    var segs := [a, p, b];
    SplitJoin(segs, '/');
    assert SegmentAccepted(segs, 0, parseInstant);
    assert SegmentAccepted(segs, 1, parseInstant) by {
      assert !IsPeriod(segs, 0);
    }
    assert SegmentAccepted(segs, 2, parseInstant) by {
      assert !IsEnd(segs, 0) && !IsEnd(segs, 1);
    }
    ParseAccepts(Join(segs, '/'), parseInstant);
    assert StartOf(segs, 2, parseInstant) == parseInstant(a).value;
    StartOfPrefix(segs, 3, parseInstant);
    assert EndOf(segs, 3, parseInstant) == parseInstant(b).value;
    assert PeriodOf(segs, 3) == Some(q);
    assert RepeatsOf(segs, 3) == 0;
  }

  /** period/end (parser_test.go:90-93): Start stays the zero time. */
  lemma PeriodEnd(p: string, b: string, q: Period, parseInstant: string -> Option<Instant>)
    requires GoodTime(b, parseInstant)
    requires '/' !in p && StartsWith(p, 'P') && Scan(p) == Ok(q)
    ensures Interpret(Join([p, b], '/'), parseInstant)
         == (Some(Info(ZeroTime, parseInstant(b).value, 0, Some(q))), None)
  {
    var segs := [p, b];
    SplitJoin(segs, '/');
    assert SegmentAccepted(segs, 0, parseInstant);
    assert SegmentAccepted(segs, 1, parseInstant) by {
      assert !IsEnd(segs, 0);
    }
    ParseAccepts(Join(segs, '/'), parseInstant);
    assert StartOf(segs, 2, parseInstant) == ZeroTime;
    assert EndOf(segs, 2, parseInstant) == parseInstant(b).value;
    assert PeriodOf(segs, 2) == Some(q);
    assert RepeatsOf(segs, 2) == 0;
  }

  /** Rn/period/end (parser_test.go:95-98): a repeat with no start. */
  lemma RepeatPeriodEnd(r: string, n: int, p: string, b: string, q: Period, parseInstant: string -> Option<Instant>)
    requires GoodRepeat(r, n) && GoodTime(b, parseInstant)
    requires '/' !in p && StartsWith(p, 'P') && Scan(p) == Ok(q)
    ensures Interpret(Join([r, p, b], '/'), parseInstant)
         == (Some(Info(ZeroTime, parseInstant(b).value, n, Some(q))), None)
  {
    var segs := [r, p, b];
    SplitJoin(segs, '/');
    assert SegmentAccepted(segs, 0, parseInstant);
    assert SegmentAccepted(segs, 1, parseInstant) by {
      assert !IsPeriod(segs, 0);
    }
    assert SegmentAccepted(segs, 2, parseInstant) by {
      assert !IsEnd(segs, 0) && !IsEnd(segs, 1);
    }
    ParseAccepts(Join(segs, '/'), parseInstant);
    assert StartOf(segs, 2, parseInstant) == ZeroTime;
    StartOfPrefix(segs, 3, parseInstant);
    assert EndOf(segs, 3, parseInstant) == parseInstant(b).value;
    assert PeriodOf(segs, 3) == Some(q);
    assert RepeatsOf(segs, 3) == n;
  }

  /** start/period (parser_test.go:100-103): End stays the zero time. */
  lemma StartPeriod(a: string, p: string, q: Period, parseInstant: string -> Option<Instant>)
    requires GoodTime(a, parseInstant)
    requires '/' !in p && StartsWith(p, 'P') && Scan(p) == Ok(q)
    ensures Interpret(Join([a, p], '/'), parseInstant)
         == (Some(Info(parseInstant(a).value, ZeroTime, 0, Some(q))), None)
  {
    var segs := [a, p];
    SplitJoin(segs, '/');
    assert SegmentAccepted(segs, 0, parseInstant);
    assert SegmentAccepted(segs, 1, parseInstant) by {
      assert !IsPeriod(segs, 0);
    }
    ParseAccepts(Join(segs, '/'), parseInstant);
    assert StartOf(segs, 2, parseInstant) == parseInstant(a).value;
    assert EndOf(segs, 2, parseInstant) == ZeroTime;
    assert PeriodOf(segs, 2) == Some(q);
    assert RepeatsOf(segs, 2) == 0;
  }

  /** Rn/start/period (parser_test.go:105-108): a repeat with no end. */
  lemma RepeatStartPeriod(r: string, n: int, a: string, p: string, q: Period, parseInstant: string -> Option<Instant>)
    requires GoodRepeat(r, n) && GoodTime(a, parseInstant)
    requires '/' !in p && StartsWith(p, 'P') && Scan(p) == Ok(q)
    ensures Interpret(Join([r, a, p], '/'), parseInstant)
         == (Some(Info(parseInstant(a).value, ZeroTime, n, Some(q))), None)
  {
    var segs := [r, a, p];
    SplitJoin(segs, '/');
    assert SegmentAccepted(segs, 0, parseInstant);
    assert SegmentAccepted(segs, 1, parseInstant);
    assert SegmentAccepted(segs, 2, parseInstant) by {
      assert !IsPeriod(segs, 0) && !IsPeriod(segs, 1);
    }
    ParseAccepts(Join(segs, '/'), parseInstant);
    assert StartOf(segs, 2, parseInstant) == parseInstant(a).value;
    StartOfPrefix(segs, 3, parseInstant);
    assert EndOf(segs, 3, parseInstant) == ZeroTime;
    assert PeriodOf(segs, 3) == Some(q);
    assert RepeatsOf(segs, 3) == n;
  }

  /** Rn/start/period/period: the second period is a duplicate. */
  lemma TwoPeriods(r: string, n: int, a: string, p: string, parseInstant: string -> Option<Instant>)
    requires GoodRepeat(r, n) && GoodTime(a, parseInstant)
    requires '/' !in p && StartsWith(p, 'P') && Scan(p).Ok?
    ensures Interpret(Join([r, a, p, p], '/'), parseInstant) == (None, Some(DuplicatePeriod))
  {
    var segs := [r, a, p, p];
    SplitJoin(segs, '/');
    assert SegmentError(segs, 0, parseInstant).None?;
    assert SegmentError(segs, 1, parseInstant).None?;
    assert !HasPeriodBefore(segs, 2) by {
      assert !IsPeriod(segs, 0) && !IsPeriod(segs, 1);
    }
    assert SegmentError(segs, 2, parseInstant).None?;
    SecondPeriodRejected(Join(segs, '/'), parseInstant, 2, 3);
  }

  /** Rn/start/period where the period does not scan: the scanner's error is passed on. */
  lemma PeriodFails(r: string, n: int, a: string, p: string, parseInstant: string -> Option<Instant>)
    requires GoodRepeat(r, n) && GoodTime(a, parseInstant)
    requires '/' !in p && StartsWith(p, 'P') && Scan(p).Err?
    ensures Interpret(Join([r, a, p], '/'), parseInstant) == (None, Some(BadPeriod(Scan(p).error)))
  {
    var segs := [r, a, p];
    SplitJoin(segs, '/');
    assert SegmentError(segs, 0, parseInstant).None?;
    assert SegmentError(segs, 1, parseInstant).None?;
    assert !HasPeriodBefore(segs, 2) by {
      assert !IsPeriod(segs, 0) && !IsPeriod(segs, 1);
    }
    SegmentFailure(segs, parseInstant, 2);
  }

  /** Rn/start/period where the start does not parse: the timestamp error aborts. */
  lemma StartFails(r: string, n: int, a: string, p: string, parseInstant: string -> Option<Instant>)
    requires GoodRepeat(r, n) && '/' !in a && KindOf(a) == TimeSegment && parseInstant(a).None?
    requires '/' !in p
    ensures Interpret(Join([r, a, p], '/'), parseInstant) == (None, Some(BadTimeComponent(a)))
  {
    var segs := [r, a, p];
    SplitJoin(segs, '/');
    assert SegmentError(segs, 0, parseInstant).None?;
    SegmentFailure(segs, parseInstant, 1);
  }

  /** Rn/period/t/t/t: the first t is the end and the second one a duplicate end. */
  lemma ThreeEnds(r: string, n: int, p: string, a: string, parseInstant: string -> Option<Instant>)
    requires GoodRepeat(r, n) && GoodTime(a, parseInstant)
    requires '/' !in p && StartsWith(p, 'P') && Scan(p).Ok?
    ensures Interpret(Join([r, p, a, a, a], '/'), parseInstant) == (None, Some(DuplicateEnd))
  {
    var segs := [r, p, a, a, a];
    SplitJoin(segs, '/');
    ThreeEndsPrefixAccepted(segs, parseInstant);
    assert IsEnd(segs, 2) && IsEnd(segs, 3);
    SecondEndRejected(Join(segs, '/'), parseInstant, 2, 3);
  }

  /** In Rn/period/t/..., the repeat, the period and the first timestamp are accepted. */
  lemma ThreeEndsPrefixAccepted(segs: seq<string>, parseInstant: string -> Option<Instant>)
    requires |segs| >= 3 && GoodRepeat(segs[0], Atoi(CountText(segs[0])).GetOr(0))
    requires StartsWith(segs[1], 'P') && Scan(segs[1]).Ok? && GoodTime(segs[2], parseInstant)
    ensures forall i | 0 <= i < 3 :: SegmentError(segs, i, parseInstant).None?
  {
    assert SegmentError(segs, 0, parseInstant).None?;
    assert !HasPeriodBefore(segs, 1) by {
      assert !IsPeriod(segs, 0);
    }
    assert SegmentError(segs, 1, parseInstant).None?;
    assert !HasEndBefore(segs, 2) by {
      assert !IsEnd(segs, 0) && !IsEnd(segs, 1);
    }
    assert SegmentError(segs, 2, parseInstant).None?;
  }

  /** The repeat segments of the examples. */
  lemma RepeatLiterals()
    ensures GoodRepeat("R1", 1) && GoodRepeat("R5", 5)
  {
    AtoiOfDigits("1");
    AtoiOfDigits("5");
    assert CountText("R1") == "1" && CountText("R5") == "5";
  }

  /** The period segments of the examples are period segments without a '/'. */
  lemma PeriodLiterals()
    ensures '/' !in "P1Y2M10DT2H30M" && StartsWith("P1Y2M10DT2H30M", 'P')
    ensures '/' !in "P1Y2D10DT2H30M" && StartsWith("P1Y2D10DT2H30M", 'P')
    ensures '/' !in "P1Y2X10DT2H30M" && StartsWith("P1Y2X10DT2H30M", 'P')
  {
  }

  /**
   * "R5/<t1>/P1Y2M10DT2H30M/<t2>" (parser_test.go:10-20): repeats 5, the
   * first timestamp as Start, the second as End, and the period 1 year,
   * 2 months, 10 days, 2 hours and 30 minutes.
   */
  lemma ExampleParse(a: string, b: string, parseInstant: string -> Option<Instant>)
    requires GoodTime(a, parseInstant) && GoodTime(b, parseInstant)
    ensures Interpret(Join(["R5", a, "P1Y2M10DT2H30M", b], '/'), parseInstant)
         == (Some(Info(parseInstant(a).value, parseInstant(b).value, 5, Some(Period(1, 2, 0, 10, 2, 30, 0)))), None)
  {
    RepeatLiterals();
    PeriodLiterals();
    ScanAcceptsDateAndTime();
    RecurringInterval("R5", 5, a, "P1Y2M10DT2H30M", b, Period(1, 2, 0, 10, 2, 30, 0), parseInstant);
  }

  /** "<timestamp>/R5" puts the repeat second and is rejected (parser_test.go:32-36). */
  lemma ExampleRepeatNotFirst(a: string, parseInstant: string -> Option<Instant>)
    requires GoodTime(a, parseInstant)
    ensures Interpret(Join([a, "R5"], '/'), parseInstant) == (None, Some(RepeatNotFirst))
  {
    var segs := [a, "R5"];
    assert '/' !in "R5";
    SplitJoin(segs, '/');
    assert SegmentError(segs, 0, parseInstant).None?;
    RepeatMustBeFirst(Join(segs, '/'), parseInstant, 1);
  }

  /** "R1/<timestamp>/P1Y2M10DT2H30M/P1Y2M10DT2H30M" has two periods (parser_test.go:55-59). */
  lemma ExampleMultiplePeriods(a: string, parseInstant: string -> Option<Instant>)
    requires GoodTime(a, parseInstant)
    ensures Interpret(Join(["R1", a, "P1Y2M10DT2H30M", "P1Y2M10DT2H30M"], '/'), parseInstant) == (None, Some(DuplicatePeriod))
  {
    RepeatLiterals();
    PeriodLiterals();
    ScanAcceptsDateAndTime();
    TwoPeriods("R1", 1, a, "P1Y2M10DT2H30M", parseInstant);
  }

  /** "R1/<timestamp>/P1Y2X10DT2H30M" passes the scanner's error on (parser_test.go:61-65). */
  lemma ExampleInvalidPeriod(a: string, parseInstant: string -> Option<Instant>)
    requires GoodTime(a, parseInstant)
    ensures Interpret(Join(["R1", a, "P1Y2X10DT2H30M"], '/'), parseInstant) == (None, Some(BadPeriod(InvalidValue('X'))))
  {
    RepeatLiterals();
    PeriodLiterals();
    ScanRejectsX();
    PeriodFails("R1", 1, a, "P1Y2X10DT2H30M", parseInstant);
  }

  /** "R1/<bad timestamp>/P1Y2D10DT2H30M": the timestamp parser's failure aborts (parser_test.go:67-71). */
  lemma ExampleInvalidTimeComponent(a: string, parseInstant: string -> Option<Instant>)
    requires '/' !in a && KindOf(a) == TimeSegment && parseInstant(a).None?
    ensures Interpret(Join(["R1", a, "P1Y2D10DT2H30M"], '/'), parseInstant) == (None, Some(BadTimeComponent(a)))
  {
    RepeatLiterals();
    PeriodLiterals();
    StartFails("R1", 1, a, "P1Y2D10DT2H30M", parseInstant);
  }

  /**
   * "R1/P1Y2D10DT2H30M/<t>/<t>/<t>": the first timestamp after the period is
   * the end, and the next one is a second end (parser_test.go:73-77).
   */
  lemma ExampleMultipleEndDates(a: string, parseInstant: string -> Option<Instant>)
    requires GoodTime(a, parseInstant)
    ensures Interpret(Join(["R1", "P1Y2D10DT2H30M", a, a, a], '/'), parseInstant) == (None, Some(DuplicateEnd))
  {
    RepeatLiterals();
    PeriodLiterals();
    ScanAcceptsOverwrittenDays();
    ThreeEnds("R1", 1, "P1Y2D10DT2H30M", a, parseInstant);
  }
}
