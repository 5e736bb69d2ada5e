/**
 * The period of an ISO 8601 duration in designator form, PnYnMnWnDTnHnMnS
 * (ISO 8601:2004 section 4.4.3.2): the left-to-right scanner that builds
 * one, the carry between its fields, and its approximate length.
 */
module Periods {
  import opened Wrappers
  import opened Text

  datatype Field = Years | Months | Weeks | Days | Hours | Minutes | Seconds

  /** One integer per designator; a field the text does not mention is 0. */
  datatype Period = Period(years: int, months: int, weeks: int, days: int,
                           hours: int, minutes: int, seconds: int)
  {
    function Get(f: Field): int {
      match f
      case Years => years
      case Months => months
      case Weeks => weeks
      case Days => days
      case Hours => hours
      case Minutes => minutes
      case Seconds => seconds
    }

    /** This period with field f replaced by v. */
    function With(f: Field, v: int): (q: Period)
      ensures q.Get(f) == v
      ensures forall g: Field | g != f :: q.Get(g) == Get(g)
      ensures NonNegative() && v >= 0 ==> q.NonNegative()
    {
      match f
      case Years => this.(years := v)
      case Months => this.(months := v)
      case Weeks => this.(weeks := v)
      case Days => this.(days := v)
      case Hours => this.(hours := v)
      case Minutes => this.(minutes := v)
      case Seconds => this.(seconds := v)
    }

    predicate NonNegative() {
      years >= 0 && months >= 0 && weeks >= 0 && days >= 0 && hours >= 0 && minutes >= 0 && seconds >= 0
    }
  }

  const Zero := Period(0, 0, 0, 0, 0, 0, 0)

  /** The scanner's failures, one per message; the rune is the one the message quotes. */
  datatype PeriodError =
    | MissingDesignator           // the first rune is not 'P'
    | TrailingDigit               // the last rune is a digit
    | InvalidValue(rune: char)    // a rune outside digits, 'P', 'T' and the unit letters
    | MissingValue(unit: char)    // a unit letter with no digits gathered for it
    | NoTimeDesignator(unit: char) // 'H' or 'S' before any 'T'

  // ---------------------------------------------------------------------------
  // What the scanner computes, stated rune by rune
  // ---------------------------------------------------------------------------

  /** The unit letters of period.go:15 ('M' is listed twice there). */
  predicate IsUnitLetter(c: char)
    ensures IsUnitLetter(c) ==> c != 'P' && c != 'T' && !('0' <= c <= '9')
  {
    c == 'Y' || c == 'M' || c == 'W' || c == 'D' || c == 'H' || c == 'S'
  }

  /** The field a unit letter assigns: 'M' is months before a 'T' and minutes after one. */
  function FieldOf(c: char, timeEnabled: bool): (f: Field)
    requires IsUnitLetter(c)
    ensures c == 'M' ==> (f == Minutes <==> timeEnabled)
    ensures f == Months ==> c == 'M' && !timeEnabled
  {
    if c == 'Y' then Years
    else if c == 'M' then (if timeEnabled then Minutes else Months)
    else if c == 'W' then Weeks
    else if c == 'D' then Days
    else if c == 'H' then Hours
    else Seconds
  }

  /**
   * The digit buffer after the first k runes: the digits met since the last
   * unit letter.  'P' and 'T' leave it as it is.
   */
  function Pending(s: string, k: nat): (ds: string)
    requires k <= |s|
    ensures AllDigits(ds)
    ensures |ds| <= k
  {
    if k == 0 then []
    else if IsUnitLetter(s[k - 1]) then []
    else if IsDigit(s[k - 1]) then Pending(s, k - 1) + [s[k - 1]]
    else Pending(s, k - 1)
  }

  /**
   * The error the scanner raises at rune k, if it gets that far, in the
   * order the checks are made.
   */
  function CheckAt(s: string, k: nat): (e: Option<PeriodError>)
    requires k < |s|
    ensures e == Some(MissingDesignator) <==> k == 0 && s[0] != 'P'
    ensures e == Some(TrailingDigit) <==> k == |s| - 1 && IsDigit(s[k]) && k > 0
    ensures e.None? <==>
              && (k > 0 || s[0] == 'P')
              && (|| s[k] == 'P' || s[k] == 'T'
                  || (IsDigit(s[k]) && k < |s| - 1)
                  || (IsUnitLetter(s[k]) && Pending(s, k) != [] && (s[k] == 'H' || s[k] == 'S' ==> 'T' in s[..k])))
    ensures e.Some? && e.value.InvalidValue? ==> e.value.rune == s[k] && !IsUnitLetter(s[k])
    ensures e.Some? && e.value.MissingValue? ==> e.value.unit == s[k] && IsUnitLetter(s[k]) && Pending(s, k) == []
    ensures e.Some? && e.value.NoTimeDesignator? ==> e.value.unit == s[k] && (s[k] == 'H' || s[k] == 'S') && 'T' !in s[..k]
  {
    var c := s[k];
    if k == 0 && c != 'P' then Some(MissingDesignator)
    else if c == 'P' then None
    else if IsDigit(c) then (if k == |s| - 1 then Some(TrailingDigit) else None)
    else if c == 'T' then None
    else if !IsUnitLetter(c) then Some(InvalidValue(c))
    else if Pending(s, k) == [] then Some(MissingValue(c))
    else if (c == 'H' || c == 'S') && 'T' !in s[..k] then Some(NoTimeDesignator(c))
    else None
  }

  /** The first position at or after `from` where a check fails. */
  function FirstError(s: string, from: nat): (k: Option<nat>)
    requires from <= |s|
    ensures k.Some? ==> from <= k.value < |s| && CheckAt(s, k.value).Some?
    ensures forall j | from <= j < |s| && (k.None? || j < k.value) :: CheckAt(s, j).None?
    decreases |s| - from
  {
    if from == |s| then None
    else if CheckAt(s, from).Some? then Some(from)
    else FirstError(s, from + 1)
  }

  /** The period after the first n runes: each unit letter overwrites its field. */
  function Collected(s: string, n: nat): (p: Period)
    requires n <= |s|
    ensures p.NonNegative()
  {
    if n == 0 then Zero
    else if IsUnitLetter(s[n - 1]) then
      Collected(s, n - 1).With(FieldOf(s[n - 1], 'T' in s[..n - 1]), DecimalValue(Pending(s, n - 1)))
    else Collected(s, n - 1)
  }

  /** The outcome of scanning s: the first failing check, else the collected period. */
  function Scan(s: string): (r: Result<Period, PeriodError>)
    ensures r.Ok? <==> forall k | 0 <= k < |s| :: CheckAt(s, k).None?
    ensures r.Ok? ==> r.value.NonNegative()
  {
    match FirstError(s, 0)
    case None => Ok(Collected(s, |s|))
    case Some(k) => Err(CheckAt(s, k).value)
  }

  /** The scan fails with the error of the first failing rune. */
  lemma FirstFailure(s: string, k: nat)
    requires k < |s|
    requires forall j | 0 <= j < k :: CheckAt(s, j).None?
    requires CheckAt(s, k).Some?
    ensures Scan(s) == Err(CheckAt(s, k).value)
  {
    var first := FirstError(s, 0);
    assert first == Some(k);
  }

  /** A text that passes every check scans to the period collected over all of it. */
  lemma ScanOk(s: string)
    requires forall k | 0 <= k < |s| :: CheckAt(s, k).None?
    ensures Scan(s) == Ok(Collected(s, |s|))
  {
    assert FirstError(s, 0).None?;
  }

  // ---------------------------------------------------------------------------
  // The scan, described by how it extends
  // ---------------------------------------------------------------------------

  /** Whether the unit letter at j writes field f. */
  predicate Assigns(s: string, j: nat, f: Field)
    requires j < |s|
  {
    IsUnitLetter(s[j]) && FieldOf(s[j], 'T' in s[..j]) == f
  }

  /** The digits of t, in order. */
  function DigitsOf(t: string): (ds: string)
    ensures AllDigits(ds)
  {
    if t == [] then []
    else if IsDigit(t[|t| - 1]) then DigitsOf(t[..|t| - 1]) + [t[|t| - 1]]
    else DigitsOf(t[..|t| - 1])
  }

  /** The buffer holds exactly the digits met since the previous unit letter. */
  lemma {:induction false} PendingSinceUnit(s: string, from: nat, k: nat)
    requires from <= k <= |s|
    requires from == 0 || IsUnitLetter(s[from - 1])
    requires forall j | from <= j < k :: !IsUnitLetter(s[j])
    ensures Pending(s, k) == DigitsOf(s[from..k])
  {
    if k == from {
      assert s[from..k] == [];
    } else {
      PendingSinceUnit(s, from, k - 1);
      assert s[from..k][..k - 1 - from] == s[from..k - 1];
    }
  }

  /** The buffer after k runes depends on those runes only. */
  lemma {:induction false} PendingPrefix(p: string, rest: string, k: nat)
    requires k <= |p|
    ensures Pending(p + rest, k) == Pending(p, k)
  {
    if k > 0 {
      PendingPrefix(p, rest, k - 1);
    }
  }

  /** The period after n runes depends on those runes only. */
  lemma {:induction false} CollectedPrefix(p: string, rest: string, n: nat)
    requires n <= |p|
    ensures Collected(p + rest, n) == Collected(p, n)
  {
    if n > 0 {
      CollectedPrefix(p, rest, n - 1);
      PendingPrefix(p, rest, n - 1);
      assert (p + rest)[..n - 1] == p[..n - 1];
    }
  }

  /** A run of digits only feeds the buffer. */
  lemma {:induction false} OverDigits(s: string, from: nat, to: nat)
    requires from <= to <= |s|
    requires forall j | from <= j < to :: IsDigit(s[j])
    ensures Pending(s, to) == Pending(s, from) + s[from..to]
    ensures Collected(s, to) == Collected(s, from)
  {
    if to > from {
      OverDigits(s, from, to - 1);
      assert s[from..to] == s[from..to - 1] + [s[to - 1]];
    } else {
      assert s[from..to] == [];
    }
  }

  /** The check at j looks only at the runes up to j, except that a digit checks whether it is last. */
  lemma CheckAtPrefix(p: string, rest: string, j: nat)
    requires j < |p|
    requires rest == [] || j < |p| - 1 || !IsDigit(p[j])
    ensures CheckAt(p + rest, j) == CheckAt(p, j)
  {
    PendingPrefix(p, rest, j);
    assert (p + rest)[..j] == p[..j];
  }

  /** A successfully scanned, non-empty prefix ends in a non-digit and passes every check inside a longer text. */
  lemma OkPrefix(p: string, rest: string)
    requires p != [] && Scan(p).Ok?
    ensures !IsDigit(p[|p| - 1])
    ensures forall j | 0 <= j < |p| :: CheckAt(p + rest, j).None?
  {
    assert CheckAt(p, |p| - 1).None?;
    forall j | 0 <= j < |p|
      ensures CheckAt(p + rest, j).None?
    {
      assert CheckAt(p, j).None?;
      CheckAtPrefix(p, rest, j);
    }
  }

  /** The empty text and a bare "P" scan to the zero period; any other first rune than 'P' fails. */
  lemma ScanStart(s: string)
    ensures Scan([]) == Ok(Zero)
    ensures Scan(['P']) == Ok(Zero)
    ensures s != [] && s[0] != 'P' ==> Scan(s) == Err(MissingDesignator)
  {
    assert CheckAt(['P'], 0).None?;
    if s != [] && s[0] != 'P' {
      FirstFailure(s, 0);
    }
  }

  /** A text whose last rune is a digit never scans, whatever precedes it. */
  lemma ScanEndsInDigit(s: string)
    requires s != [] && IsDigit(s[|s| - 1])
    ensures Scan(s).Err?
    ensures |s| > 1 && Scan(s[..|s| - 1]).Ok? ==> Scan(s) == Err(TrailingDigit)
  {
    assert CheckAt(s, |s| - 1).Some?;
    if |s| > 1 && Scan(s[..|s| - 1]).Ok? {
      var p := s[..|s| - 1];
      OkPrefix(p, [s[|s| - 1]]);
      assert p + [s[|s| - 1]] == s;
      FirstFailure(s, |s| - 1);
    }
  }

  /** Digits at the end of a text that scans make the longer text fail with TrailingDigit. */
  lemma ScanAppendDigits(p: string, ds: string)
    requires p != [] && Scan(p).Ok?
    requires ds != [] && AllDigits(ds)
    ensures Scan(p + ds) == Err(TrailingDigit)
  {
    var s := p + ds;
    OkPrefix(p, ds);
    forall j | |p| <= j < |s| - 1
      ensures CheckAt(s, j).None?
    {
      assert s[j] == ds[j - |p|];
    }
    assert s[|s| - 1] == ds[|ds| - 1];
    FirstFailure(s, |s| - 1);
  }

  /** 'P' and 'T' after a text that scans change no field (the buffer is not cleared either). */
  lemma ScanAppendMarker(p: string, c: char)
    requires p != [] && Scan(p).Ok?
    requires c == 'P' || c == 'T'
    ensures Scan(p + [c]) == Scan(p)
    ensures Pending(p + [c], |p| + 1) == Pending(p, |p|)
  {
    var s := p + [c];
    OkPrefix(p, [c]);
    assert CheckAt(s, |p|).None?;
    ScanOk(s);
    ScanOk(p);
    CollectedPrefix(p, [c], |p|);
    PendingPrefix(p, [c], |p|);
    assert s[|s| - 1] == c;
  }

  /** Digits after a text that scans pass their checks as long as something follows them. */
  lemma ScanThroughDigits(p: string, ds: string, rest: string)
    requires p != [] && Scan(p).Ok?
    requires AllDigits(ds) && rest != []
    ensures forall j | 0 <= j < |p| + |ds| :: CheckAt(p + ds + rest, j).None?
    ensures Pending(p + ds + rest, |p| + |ds|) == Pending(p, |p|) + ds
    ensures Collected(p + ds + rest, |p| + |ds|) == Scan(p).value
    ensures (p + ds + rest)[..|p| + |ds|] == p + ds
  {
    var s := p + ds + rest;
    var n := |p| + |ds|;
    assert s == p + (ds + rest);
    OkPrefix(p, ds + rest);
    forall j | |p| <= j < n
      ensures IsDigit(s[j]) && CheckAt(s, j).None?
    {
      assert s[j] == ds[j - |p|];
    }
    PendingPrefix(p, ds + rest, |p|);
    CollectedPrefix(p, ds + rest, |p|);
    OverDigits(s, |p|, n);
    assert s[|p|..n] == ds;
  }

  /** Digits never switch the time flag on. */
  lemma TimeFlagOverDigits(p: string, ds: string)
    requires AllDigits(ds)
    ensures ('T' in p + ds) == ('T' in p)
  {
  }

  /**
   * Digits and a unit letter after a text that scans: the letter writes the
   * value of every digit gathered since the previous unit letter into its
   * field, replacing what was there; 'M' is months or minutes according to
   * an earlier 'T', and 'H' or 'S' without one fails.
   */
  lemma ScanAppendUnit(p: string, ds: string, u: char)
    requires p != [] && Scan(p).Ok?
    requires AllDigits(ds) && IsUnitLetter(u)
    requires Pending(p, |p|) + ds != []
    ensures Scan(p + ds + [u]) ==
      if (u == 'H' || u == 'S') && 'T' !in p then Err(NoTimeDesignator(u))
      else Ok(Scan(p).value.With(FieldOf(u, 'T' in p), DecimalValue(Pending(p, |p|) + ds)))
  {
    var s := p + ds + [u];
    var n := |p| + |ds|;
    UnitAfterDigits(p, ds, u);
    if (u == 'H' || u == 'S') && 'T' !in p {
      assert CheckAt(s, n) == Some(NoTimeDesignator(u));
      FirstFailure(s, n);
      assert Scan(s) == Err(NoTimeDesignator(u));
    } else {
      assert CheckAt(s, n).None?;
      ScanLastUnit(s, n, Scan(p).value, FieldOf(u, 'T' in p), DecimalValue(Pending(p, |p|) + ds));
    }
  }

  /** A text that passes every check and ends in a unit letter: that letter's write is the last. */
  lemma ScanLastUnit(s: string, n: nat, q: Period, f: Field, v: int)
    requires n + 1 == |s| && IsUnitLetter(s[n])
    requires forall k | 0 <= k < |s| :: CheckAt(s, k).None?
    requires Collected(s, n) == q && FieldOf(s[n], 'T' in s[..n]) == f && DecimalValue(Pending(s, n)) == v
    ensures Scan(s) == Ok(q.With(f, v))
  {
    ScanOk(s);
  }

  /** The state the scanner is in when it meets the unit letter of ScanAppendUnit. */
  lemma UnitAfterDigits(p: string, ds: string, u: char)
    requires p != [] && Scan(p).Ok?
    requires AllDigits(ds)
    ensures |p + ds + [u]| - 1 == |p| + |ds| && (p + ds + [u])[|p| + |ds|] == u
    ensures forall j | 0 <= j < |p| + |ds| :: CheckAt(p + ds + [u], j).None?
    ensures Pending(p + ds + [u], |p| + |ds|) == Pending(p, |p|) + ds
    ensures ('T' in (p + ds + [u])[..|p| + |ds|]) == ('T' in p)
    ensures Collected(p + ds + [u], |p| + |ds|) == Scan(p).value
  {
    ScanThroughDigits(p, ds, [u]);
    TimeFlagOverDigits(p, ds);
  }

  /** A unit letter with nothing gathered for it fails, whatever follows. */
  lemma ScanAppendUnitWithoutValue(p: string, u: char, rest: string)
    requires p != [] && Scan(p).Ok?
    requires IsUnitLetter(u) && Pending(p, |p|) == []
    ensures Scan(p + [u] + rest) == Err(MissingValue(u))
  {
    var s := p + [u] + rest;
    assert s == p + ([u] + rest);
    OkPrefix(p, [u] + rest);
    PendingPrefix(p, [u] + rest, |p|);
    FirstFailure(s, |p|);
  }

  /** A rune that is not a digit, 'P', 'T' or a unit letter fails, whatever precedes or follows it. */
  lemma ScanAppendInvalid(p: string, ds: string, c: char, rest: string)
    requires p != [] && Scan(p).Ok? && AllDigits(ds)
    requires !IsDigit(c) && c != 'P' && c != 'T' && !IsUnitLetter(c)
    ensures Scan(p + ds + [c] + rest) == Err(InvalidValue(c))
  {
    var s := p + ds + [c] + rest;
    assert s == p + ds + ([c] + rest);
    ScanThroughDigits(p, ds, [c] + rest);
    FirstFailure(s, |p| + |ds|);
  }

  /** The first failure stops the scan: nothing appended changes it, unless it was a trailing digit. */
  lemma ScanErrorSticks(p: string, rest: string)
    requires Scan(p).Err? && Scan(p).error != TrailingDigit
    ensures Scan(p + rest) == Scan(p)
  {
    var k := FirstError(p, 0).value;
    forall j | 0 <= j < k
      ensures CheckAt(p + rest, j) == CheckAt(p, j)
    {
      CheckAtPrefix(p, rest, j);
    }
    if k == 0 && p[0] != 'P' {
      assert CheckAt(p + rest, 0) == CheckAt(p, 0);
    } else {
      CheckAtPrefix(p, rest, k);
    }
    FirstFailure(p + rest, k);
  }

  /** Each field holds the value gathered before the last unit letter that writes it. */
  lemma {:induction false} CollectedLastWrite(s: string, n: nat, f: Field, k: nat)
    requires k < n <= |s|
    requires Assigns(s, k, f)
    requires forall j | k < j < n :: !Assigns(s, j, f)
    ensures Collected(s, n).Get(f) == DecimalValue(Pending(s, k))
  {
    if n - 1 > k {
      CollectedLastWrite(s, n - 1, f, k);
      assert !Assigns(s, n - 1, f);
    }
  }

  /** A field no unit letter writes stays 0. */
  lemma {:induction false} CollectedUnwritten(s: string, n: nat, f: Field)
    requires n <= |s|
    requires forall j | 0 <= j < n :: !Assigns(s, j, f)
    ensures Collected(s, n).Get(f) == 0
  {
    if n > 0 {
      CollectedUnwritten(s, n - 1, f);
      assert !Assigns(s, n - 1, f);
    }
  }

  /** "DT1S" lacks the leading 'P' (period_test.go:10-13). */
  lemma ScanRejectsMissingDesignator()
    ensures Scan("DT1S") == Err(MissingDesignator)
  {
    ScanStart("DT1S");
  }

  /** "P1S" and "P1H" name a time unit before any 'T' (period_test.go:15-23). */
  lemma ScanRejectsTimeUnitBeforeT()
    ensures Scan("P1S") == Err(NoTimeDesignator('S'))
    ensures Scan("P1H") == Err(NoTimeDesignator('H'))
  {
    ScanStart([]);
    ScanAppendUnit("P", "1", 'S');
    assert "P" + "1" + "S" == "P1S";
    ScanAppendUnit("P", "1", 'H');
    assert "P" + "1" + "H" == "P1H";
  }

  /** "PS" has no digits before its unit letter (period_test.go:25-28). */
  lemma ScanRejectsMissingValue()
    ensures Scan("PS") == Err(MissingValue('S'))
  {
    ScanStart([]);
    ScanAppendUnitWithoutValue("P", 'S', []);
    assert "P" + "S" + [] == "PS";
  }

  /** "PT1S4" ends in a digit (period_test.go:30-33). */
  lemma ScanRejectsTrailingDigit()
    ensures Scan("PT1S4") == Err(TrailingDigit)
  {
    var s := ['P', 'T', '1', 'S'];
    ScanOneTimeUnit('1', 'S');
    ScanAppendDigits(s, ['4']);
    assert s + ['4'] == "PT1S4";
  }

  /** "P1Q" holds a rune that is no designator (period_test.go:35-38). */
  lemma ScanRejectsInvalidRune()
    ensures Scan("P1Q") == Err(InvalidValue('Q'))
  {
    ScanStart([]);
    ScanAppendInvalid("P", "1", 'Q', []);
    assert "P" + "1" + "Q" + [] == "P1Q";
  }

  /** After a unit letter the buffer is empty, so the next value is exactly the next digits. */
  lemma ScanNextUnit(p: string, ds: string, u: char, q: Period)
    requires p != [] && Scan(p) == Ok(q) && (IsUnitLetter(p[|p| - 1]) || p == ['P'])
    requires ds != [] && AllDigits(ds) && IsUnitLetter(u)
    requires u == 'H' || u == 'S' ==> 'T' in p
    ensures Scan(p + ds + [u]) == Ok(q.With(FieldOf(u, 'T' in p), DecimalValue(ds)))
  {
    assert Pending(p, |p|) == [];
    assert Pending(p, |p|) + ds == ds;
    ScanAppendUnit(p, ds, u);
  }

  /** The opening PnYnM, with its digits left open: the 'M' before any 'T' is months. */
  lemma ScanYearMonth(y: char, mo: char)
    requires IsDigit(y) && IsDigit(mo)
    ensures Scan(['P', y, 'Y', mo, 'M']) == Ok(Zero.(years := DecimalValue([y]), months := DecimalValue([mo])))
  {
    var s1 := ['P', y, 'Y'];
    var q1 := Zero.(years := DecimalValue([y]));
    assert Scan(s1) == Ok(q1) by {
      ScanStart([]);
      ScanNextUnit(['P'], [y], 'Y', Zero);
      assert ['P'] + [y] + ['Y'] == s1;
    }
    ScanNextUnit(s1, [mo], 'M', q1);
    assert s1 + [mo] + ['M'] == ['P', y, 'Y', mo, 'M'] && 'T' !in s1;
  }

  /** The date part PnYnMnnD, with its digits left open. */
  lemma ScanDateShape(y: char, mo: char, d1: char, d2: char)
    requires IsDigit(y) && IsDigit(mo) && IsDigit(d1) && IsDigit(d2)
    ensures Scan(['P', y, 'Y', mo, 'M', d1, d2, 'D']) ==
      Ok(Zero.(years := DecimalValue([y]), months := DecimalValue([mo]), days := DecimalValue([d1, d2])))
  {
    var s2 := ['P', y, 'Y', mo, 'M'];
    ScanYearMonth(y, mo);
    ScanNextUnit(s2, [d1, d2], 'D', Zero.(years := DecimalValue([y]), months := DecimalValue([mo])));
    assert s2 + [d1, d2] + ['D'] == ['P', y, 'Y', mo, 'M', d1, d2, 'D'];
  }

  /** The date part PnYnMnnD followed by 'T', which leaves the buffer empty. */
  lemma ScanDateThenT(y: char, mo: char, d1: char, d2: char)
    requires IsDigit(y) && IsDigit(mo) && IsDigit(d1) && IsDigit(d2)
    ensures Scan(['P', y, 'Y', mo, 'M', d1, d2, 'D', 'T']) ==
      Ok(Zero.(years := DecimalValue([y]), months := DecimalValue([mo]), days := DecimalValue([d1, d2])))
    ensures Pending(['P', y, 'Y', mo, 'M', d1, d2, 'D', 'T'], 9) == []
  {
    var s3 := ['P', y, 'Y', mo, 'M', d1, d2, 'D'];
    ScanDateShape(y, mo, d1, d2);
    ScanAppendMarker(s3, 'T');
    assert Pending(s3, |s3|) == [];
    assert s3 + ['T'] == ['P', y, 'Y', mo, 'M', d1, d2, 'D', 'T'];
  }

  /** The same followed by nH. */
  lemma ScanDateThenHours(y: char, mo: char, d1: char, d2: char, h: char)
    requires IsDigit(y) && IsDigit(mo) && IsDigit(d1) && IsDigit(d2) && IsDigit(h)
    ensures Scan(['P', y, 'Y', mo, 'M', d1, d2, 'D', 'T', h, 'H']) ==
      Ok(Zero.(years := DecimalValue([y]), months := DecimalValue([mo]), days := DecimalValue([d1, d2]),
               hours := DecimalValue([h])))
  {
    var s4 := ['P', y, 'Y', mo, 'M', d1, d2, 'D', 'T'];
    ScanDateThenT(y, mo, d1, d2);
    ScanAppendUnit(s4, [h], 'H');
    assert [] + [h] == [h];
    assert s4 + [h] + ['H'] == ['P', y, 'Y', mo, 'M', d1, d2, 'D', 'T', h, 'H'] && s4[8] == 'T';
  }

  /**
   * The shape PnYnMnnDTnHnnM, with its digits left open: every field is
   * the value of its digits, and the 'M' after 'T' is minutes.
   */
  lemma ScanDateAndTimeShape(y: char, mo: char, d1: char, d2: char, h: char, mi1: char, mi2: char)
    requires IsDigit(y) && IsDigit(mo) && IsDigit(d1) && IsDigit(d2)
    requires IsDigit(h) && IsDigit(mi1) && IsDigit(mi2)
    ensures Scan(['P', y, 'Y', mo, 'M', d1, d2, 'D', 'T', h, 'H', mi1, mi2, 'M']) ==
      Ok(Period(DecimalValue([y]), DecimalValue([mo]), 0, DecimalValue([d1, d2]),
                DecimalValue([h]), DecimalValue([mi1, mi2]), 0))
  {
    var s5 := ['P', y, 'Y', mo, 'M', d1, d2, 'D', 'T', h, 'H'];
    var q5 := Zero.(years := DecimalValue([y]), months := DecimalValue([mo]), days := DecimalValue([d1, d2]),
                    hours := DecimalValue([h]));
    ScanDateThenHours(y, mo, d1, d2, h);
    assert s5[8] == 'T';
    ScanNextUnit(s5, [mi1, mi2], 'M', q5);
    assert s5 + [mi1, mi2] + ['M'] == ['P', y, 'Y', mo, 'M', d1, d2, 'D', 'T', h, 'H', mi1, mi2, 'M'];
  }

  /** "P1Y2M10DT2H30M" (period_test.go:72-74). */
  lemma ScanAcceptsDateAndTime()
    ensures Scan("P1Y2M10DT2H30M") == Ok(Period(1, 2, 0, 10, 2, 30, 0))
  {
    ScanDateAndTimeShape('1', '2', '1', '0', '2', '3', '0');
    assert DecimalValue(['1']) == 1 && DecimalValue(['2']) == 2;
    assert DecimalValue(['1', '0']) == 10 && DecimalValue(['3', '0']) == 30;
    assert ['P', '1', 'Y', '2', 'M', '1', '0', 'D', 'T', '2', 'H', '3', '0', 'M'] == "P1Y2M10DT2H30M";
  }

  /** The date part PnYnMnD with one digit per field, followed by 'T'. */
  lemma ScanSixUnitsDate(y: char, mo: char, d: char)
    requires IsDigit(y) && IsDigit(mo) && IsDigit(d)
    ensures Scan(['P', y, 'Y', mo, 'M', d, 'D', 'T']) ==
      Ok(Zero.(years := DecimalValue([y]), months := DecimalValue([mo]), days := DecimalValue([d])))
    ensures Pending(['P', y, 'Y', mo, 'M', d, 'D', 'T'], 8) == []
  {
    var s2 := ['P', y, 'Y', mo, 'M'];
    var s3 := s2 + [d, 'D'];
    ScanYearMonth(y, mo);
    assert Scan(s3) == Ok(Zero.(years := DecimalValue([y]), months := DecimalValue([mo]), days := DecimalValue([d]))) by {
      ScanNextUnit(s2, [d], 'D', Zero.(years := DecimalValue([y]), months := DecimalValue([mo])));
      assert s2 + [d] + ['D'] == s3;
    }
    ScanAppendMarker(s3, 'T');
    assert Pending(s3, |s3|) == [];
    assert s3 + ['T'] == ['P', y, 'Y', mo, 'M', d, 'D', 'T'];
  }

  /** The same followed by nH. */
  lemma ScanSixUnitsHours(y: char, mo: char, d: char, h: char)
    requires IsDigit(y) && IsDigit(mo) && IsDigit(d) && IsDigit(h)
    ensures Scan(['P', y, 'Y', mo, 'M', d, 'D', 'T', h, 'H']) ==
      Ok(Zero.(years := DecimalValue([y]), months := DecimalValue([mo]), days := DecimalValue([d]),
               hours := DecimalValue([h])))
  {
    var s4 := ['P', y, 'Y', mo, 'M', d, 'D', 'T'];
    ScanSixUnitsDate(y, mo, d);
    ScanAppendUnit(s4, [h], 'H');
    assert [] + [h] == [h];
    assert s4 + [h] + ['H'] == ['P', y, 'Y', mo, 'M', d, 'D', 'T', h, 'H'] && s4[7] == 'T';
  }

  /** The same followed by nM, which is minutes after the 'T'. */
  lemma ScanSixUnitsMinutes(y: char, mo: char, d: char, h: char, mi: char)
    requires IsDigit(y) && IsDigit(mo) && IsDigit(d) && IsDigit(h) && IsDigit(mi)
    ensures Scan(['P', y, 'Y', mo, 'M', d, 'D', 'T', h, 'H', mi, 'M']) ==
      Ok(Zero.(years := DecimalValue([y]), months := DecimalValue([mo]), days := DecimalValue([d]),
               hours := DecimalValue([h]), minutes := DecimalValue([mi])))
  {
    var s5 := ['P', y, 'Y', mo, 'M', d, 'D', 'T', h, 'H'];
    ScanSixUnitsHours(y, mo, d, h);
    assert s5[7] == 'T';
    ScanNextUnit(s5, [mi], 'M', Zero.(years := DecimalValue([y]), months := DecimalValue([mo]),
                                      days := DecimalValue([d]), hours := DecimalValue([h])));
    assert s5 + [mi] + ['M'] == ['P', y, 'Y', mo, 'M', d, 'D', 'T', h, 'H', mi, 'M'];
  }

  /** The shape PnYnMnDTnHnMnS with one digit per field. */
  lemma ScanSixUnitsShape(y: char, mo: char, d: char, h: char, mi: char, sec: char)
    requires IsDigit(y) && IsDigit(mo) && IsDigit(d) && IsDigit(h) && IsDigit(mi) && IsDigit(sec)
    ensures Scan(['P', y, 'Y', mo, 'M', d, 'D', 'T', h, 'H', mi, 'M', sec, 'S']) ==
      Ok(Period(DecimalValue([y]), DecimalValue([mo]), 0, DecimalValue([d]),
                DecimalValue([h]), DecimalValue([mi]), DecimalValue([sec])))
  {
    var s6 := ['P', y, 'Y', mo, 'M', d, 'D', 'T', h, 'H', mi, 'M'];
    ScanSixUnitsMinutes(y, mo, d, h, mi);
    assert s6[7] == 'T';
    ScanNextUnit(s6, [sec], 'S', Zero.(years := DecimalValue([y]), months := DecimalValue([mo]),
                                       days := DecimalValue([d]), hours := DecimalValue([h]),
                                       minutes := DecimalValue([mi])));
    assert s6 + [sec] + ['S'] == ['P', y, 'Y', mo, 'M', d, 'D', 'T', h, 'H', mi, 'M', sec, 'S'];
  }

  /** "P6Y5M4DT3H2M1S" (period_test.go:64-66). */
  lemma ScanAcceptsAllUnits()
    ensures Scan("P6Y5M4DT3H2M1S") == Ok(Period(6, 5, 0, 4, 3, 2, 1))
  {
    ScanSixUnitsShape('6', '5', '4', '3', '2', '1');
  }

  /** A digit and then 'T' after "P" scan to the zero period, with that digit still pending. */
  lemma ScanDigitThenT(d: char)
    requires IsDigit(d)
    ensures Scan(['P', d, 'T']) == Ok(Zero) && Pending(['P', d, 'T'], 3) == [d]
  {
    var s := ['P', d, 'T'];
    assert CheckAt(s, 0).None? && CheckAt(s, 1).None? && CheckAt(s, 2).None?;
    ScanOk(s);
    assert !IsUnitLetter(d) && !IsUnitLetter('P') && !IsUnitLetter('T');
    assert Collected(s, 1) == Zero;
    assert Collected(s, 3) == Collected(s, 2) == Collected(s, 1);
    assert Pending(s, 2) == [d];
  }

  /**
   * 'T' does not clear the digit buffer: in "P1T2H" the digits on both sides
   * of it make up the hours, 12.
   */
  lemma ScanDigitsAcrossT()
    ensures Scan("P1T2H") == Ok(Zero.(hours := 12))
  {
    var p := ['P', '1', 'T'];
    ScanDigitThenT('1');
    ScanAppendUnit(p, ['2'], 'H');
    assert ['1'] + ['2'] == ['1', '2'] && DecimalValue(['1', '2']) == 12;
    assert p + ['2'] + ['H'] == "P1T2H";
  }

  /** A repeated unit letter overwrites the earlier value: in "P2D10D" the days are 10. */
  lemma ScanRepeatedUnitOverwrites()
    ensures Scan("P2D10D") == Ok(Zero.(days := 10))
  {
    var p := ['P', '2', 'D'];
    ScanOneDateUnit('2', 'D');
    assert DecimalValue(['2']) == 2;
    ScanNextUnit(p, ['1', '0'], 'D', Zero.(days := 2));
    assert DecimalValue(['1', '0']) == 10;
    assert p + ['1', '0'] + ['D'] == "P2D10D";
  }

  /** 'T' and nH after a text that scans and ends in a unit letter. */
  lemma ScanThenHours(p: string, q: Period, h: char)
    requires p != [] && Scan(p) == Ok(q) && IsUnitLetter(p[|p| - 1]) && IsDigit(h)
    ensures Scan(p + ['T', h, 'H']) == Ok(q.(hours := DecimalValue([h])))
  {
    var s4 := p + ['T'];
    ScanAppendMarker(p, 'T');
    assert Pending(s4, |s4|) == [];
    ScanAppendUnit(s4, [h], 'H');
    assert [] + [h] == [h] && s4[|s4| - 1] == 'T';
    assert s4 + [h] + ['H'] == p + ['T', h, 'H'];
  }

  /** The opening PnYnDnnD, whose second day value replaces the first. */
  lemma ScanDaysTwice(y: char, d: char, e1: char, e2: char)
    requires IsDigit(y) && IsDigit(d) && IsDigit(e1) && IsDigit(e2)
    ensures Scan(['P', y, 'Y', d, 'D', e1, e2, 'D']) == Ok(Zero.(years := DecimalValue([y]), days := DecimalValue([e1, e2])))
  {
    var s1 := ['P', y, 'Y'];
    var s2 := s1 + [d, 'D'];
    var q1 := Zero.(years := DecimalValue([y]));
    assert Scan(s1) == Ok(q1) by {
      ScanOneDateUnit(y, 'Y');
    }
    assert Scan(s2) == Ok(q1.(days := DecimalValue([d]))) by {
      ScanNextUnit(s1, [d], 'D', q1);
      assert s1 + [d] + ['D'] == s2;
    }
    ScanNextUnit(s2, [e1, e2], 'D', q1.(days := DecimalValue([d])));
    assert s2 + [e1, e2] + ['D'] == ['P', y, 'Y', d, 'D', e1, e2, 'D'];
  }

  /** The same followed by TnH. */
  lemma ScanDaysTwiceThenHours(y: char, d: char, e1: char, e2: char, h: char)
    requires IsDigit(y) && IsDigit(d) && IsDigit(e1) && IsDigit(e2) && IsDigit(h)
    ensures Scan(['P', y, 'Y', d, 'D', e1, e2, 'D', 'T', h, 'H'])
         == Ok(Zero.(years := DecimalValue([y]), days := DecimalValue([e1, e2]), hours := DecimalValue([h])))
  {
    var s3 := ['P', y, 'Y', d, 'D', e1, e2, 'D'];
    ScanDaysTwice(y, d, e1, e2);
    ScanThenHours(s3, Zero.(years := DecimalValue([y]), days := DecimalValue([e1, e2])), h);
    assert s3 + ['T', h, 'H'] == ['P', y, 'Y', d, 'D', e1, e2, 'D', 'T', h, 'H'];
  }

  /** The shape PnYnDnnDTnHnnM, with its digits left open. */
  lemma ScanDaysTwiceShape(y: char, d: char, e1: char, e2: char, h: char, mi1: char, mi2: char)
    requires IsDigit(y) && IsDigit(d) && IsDigit(e1) && IsDigit(e2)
    requires IsDigit(h) && IsDigit(mi1) && IsDigit(mi2)
    ensures Scan(['P', y, 'Y', d, 'D', e1, e2, 'D', 'T', h, 'H', mi1, mi2, 'M']) ==
      Ok(Period(DecimalValue([y]), 0, 0, DecimalValue([e1, e2]), DecimalValue([h]), DecimalValue([mi1, mi2]), 0))
  {
    var s5 := ['P', y, 'Y', d, 'D', e1, e2, 'D', 'T', h, 'H'];
    var q5 := Zero.(years := DecimalValue([y]), days := DecimalValue([e1, e2]), hours := DecimalValue([h]));
    ScanDaysTwiceThenHours(y, d, e1, e2, h);
    assert s5[8] == 'T';
    ScanNextUnit(s5, [mi1, mi2], 'M', q5);
    assert s5 + [mi1, mi2] + ['M'] == ['P', y, 'Y', d, 'D', e1, e2, 'D', 'T', h, 'H', mi1, mi2, 'M'];
  }

  /** "P1Y2D10DT2H30M" (parser_test.go:67-77): the days are 10, the later value. */
  lemma ScanAcceptsOverwrittenDays()
    ensures Scan("P1Y2D10DT2H30M") == Ok(Period(1, 0, 0, 10, 2, 30, 0))
  {
    ScanDaysTwiceShape('1', '2', '1', '0', '2', '3', '0');
    assert DecimalValue(['1']) == 1 && DecimalValue(['2']) == 2;
    assert DecimalValue(['1', '0']) == 10 && DecimalValue(['3', '0']) == 30;
    assert ['P', '1', 'Y', '2', 'D', '1', '0', 'D', 'T', '2', 'H', '3', '0', 'M'] == "P1Y2D10DT2H30M";
  }

  /** "P1Y2X10DT2H30M" fails at the 'X', whatever follows it (parser_test.go:61-65). */
  lemma ScanRejectsX()
    ensures Scan("P1Y2X10DT2H30M") == Err(InvalidValue('X'))
  {
    var p := "P1Y";
    var rest := "10DT2H30M";
    assert p + "2" + "X" + rest == "P1Y2X10DT2H30M";
    assert Scan(p).Ok? by {
      ScanOneDateUnit('1', 'Y');
      assert p == ['P', '1', 'Y'];
    }
    ScanAppendInvalid(p, "2", 'X', rest);
  }

  /** A digit and a unit letter after "P": the single-unit cases of period_test.go:52-62 and 68-70. */
  lemma ScanOneDateUnit(d: char, u: char)
    requires IsDigit(d) && IsUnitLetter(u) && u != 'H' && u != 'S'
    ensures Scan(['P', d, u]) == Ok(Zero.With(FieldOf(u, false), DecimalValue([d])))
  {
    ScanStart([]);
    assert Pending(['P'], 1) == [];
    ScanAppendUnit(['P'], [d], u);
    assert [] + [d] == [d] && 'T' !in ['P'];
    assert ['P'] + [d] + [u] == ['P', d, u];
  }

  /** "PT" alone scans to the zero period with no digits pending. */
  lemma ScanTimeDesignator()
    ensures Scan(['P', 'T']) == Ok(Zero) && Pending(['P', 'T'], 2) == []
  {
    ScanStart([]);
    assert Pending(['P'], 1) == [];
    ScanAppendMarker(['P'], 'T');
    assert ['P'] + ['T'] == ['P', 'T'];
  }

  /** A digit and a unit letter after "PT": the single-unit cases of period_test.go:40-50. */
  lemma ScanOneTimeUnit(d: char, u: char)
    requires IsDigit(d) && IsUnitLetter(u)
    ensures Scan(['P', 'T', d, u]) == Ok(Zero.With(FieldOf(u, true), DecimalValue([d])))
  {
    var pt := ['P', 'T'];
    ScanTimeDesignator();
    ScanAppendUnit(pt, [d], u);
    assert [] + [d] == [d] && 'T' in pt;
    assert pt + [d] + [u] == ['P', 'T', d, u];
  }

  /** "PT1S" (period_test.go:40-42): seconds after 'T'. */
  lemma ScanAcceptsSeconds()
    ensures Scan("PT1S") == Ok(Zero.(seconds := 1))
  {
    ScanOneTimeUnit('1', 'S');
    assert DecimalValue(['1']) == 1;
    assert ['P', 'T', '1', 'S'] == "PT1S";
  }

  /** "PT2M" (period_test.go:44-46): 'M' after 'T' is minutes. */
  lemma ScanAcceptsMinutes()
    ensures Scan("PT2M") == Ok(Zero.(minutes := 2))
  {
    ScanOneTimeUnit('2', 'M');
    assert DecimalValue(['2']) == 2;
    assert ['P', 'T', '2', 'M'] == "PT2M";
  }

  /** "PT3H" (period_test.go:48-50): hours after 'T'. */
  lemma ScanAcceptsHours()
    ensures Scan("PT3H") == Ok(Zero.(hours := 3))
  {
    ScanOneTimeUnit('3', 'H');
    assert DecimalValue(['3']) == 3;
    assert ['P', 'T', '3', 'H'] == "PT3H";
  }

  /** "P4D" (period_test.go:52-54): days. */
  lemma ScanAcceptsDays()
    ensures Scan("P4D") == Ok(Zero.(days := 4))
  {
    ScanOneDateUnit('4', 'D');
    assert DecimalValue(['4']) == 4;
    assert ['P', '4', 'D'] == "P4D";
  }

  /** "P5M" (period_test.go:56-58): 'M' before any 'T' is months. */
  lemma ScanAcceptsMonths()
    ensures Scan("P5M") == Ok(Zero.(months := 5))
  {
    ScanOneDateUnit('5', 'M');
    assert DecimalValue(['5']) == 5;
    assert ['P', '5', 'M'] == "P5M";
  }

  /** "P6Y" (period_test.go:60-62): years. */
  lemma ScanAcceptsYears()
    ensures Scan("P6Y") == Ok(Zero.(years := 6))
  {
    ScanOneDateUnit('6', 'Y');
    assert DecimalValue(['6']) == 6;
    assert ['P', '6', 'Y'] == "P6Y";
  }

  /** "P7W" (period_test.go:68-70): weeks. */
  lemma ScanAcceptsWeeks()
    ensures Scan("P7W") == Ok(Zero.(weeks := 7))
  {
    ScanOneDateUnit('7', 'W');
    assert DecimalValue(['7']) == 7;
    assert ['P', '7', 'W'] == "P7W";
  }

  // ---------------------------------------------------------------------------
  // The scanner
  // ---------------------------------------------------------------------------

  /** How the buffer, the time flag and the period change over rune i. */
  lemma ScanStep(s: string, i: nat)
    requires i < |s|
    ensures ('T' in s[..i + 1]) == ('T' in s[..i] || s[i] == 'T')
    ensures Pending(s, i + 1) == if IsUnitLetter(s[i]) then [] else if IsDigit(s[i]) then Pending(s, i) + [s[i]] else Pending(s, i)
    ensures !IsUnitLetter(s[i]) ==> Collected(s, i + 1) == Collected(s, i)
    ensures IsUnitLetter(s[i]) ==>
      Collected(s, i + 1) == Collected(s, i).With(FieldOf(s[i], 'T' in s[..i]), DecimalValue(Pending(s, i)))
  {
    assert s[..i + 1] == s[..i] + [s[i]];
  }

  /**
   * The switch on the unit letter inside the scanner: the value goes to the
   * letter's field, 'M' choosing by the time flag, and 'H' or 'S' fail
   * without it.
   */
  method AssignUnit(ret: Period, v: char, timeEnabled: bool, val: int) returns (r: Result<Period, PeriodError>)
    requires IsUnitLetter(v)
    ensures (v == 'H' || v == 'S') && !timeEnabled ==> r == Err(NoTimeDesignator(v))
    ensures !((v == 'H' || v == 'S') && !timeEnabled) ==> r == Ok(ret.With(FieldOf(v, timeEnabled), val))
  {
    var q := ret;
    if v == 'Y' {
      q := q.(years := val);
    } else if v == 'M' {
      if timeEnabled {
        q := q.(minutes := val);
      } else {
        q := q.(months := val);
      }
    } else if v == 'W' {
      q := q.(weeks := val);
    } else if v == 'D' {
      q := q.(days := val);
    } else if v == 'H' {
      if !timeEnabled {
        return Err(NoTimeDesignator(v));
      }
      q := q.(hours := val);
    } else {
      if !timeEnabled {
        return Err(NoTimeDesignator(v));
      }
      q := q.(seconds := val);
    }
    return Ok(q);
  }

  /**
   * PeriodFromString: one pass over the runes with a digit buffer, a flag
   * set by 'T', and the period being filled in; the first failure returns.
   */
  method PeriodFromString(value: string) returns (result: Result<Period, PeriodError>)
    ensures result == Scan(value)
  {
    var builder: string := [];
    var timeEnabled := false;
    var ret := Zero;
    for i := 0 to |value|
      invariant forall j | 0 <= j < i :: CheckAt(value, j).None?
      invariant builder == Pending(value, i)
      invariant timeEnabled == ('T' in value[..i])
      invariant ret == Collected(value, i)
    {
      var v := value[i];
      ScanStep(value, i);
      if i == 0 && v != 'P' {
        FirstFailure(value, i);
        return Err(MissingDesignator);
      }
      if v == 'P' {
        continue;
      }
      if IsDigit(v) {
        if i == |value| - 1 {
          FirstFailure(value, i);
          return Err(TrailingDigit);
        }
        builder := builder + [v];
        continue;
      }
      if v == 'T' {
        timeEnabled := true;
        continue;
      }
      if !IsUnitLetter(v) {
        FirstFailure(value, i);
        return Err(InvalidValue(v));
      }
      if builder == [] {
        FirstFailure(value, i);
        return Err(MissingValue(v));
      }
      // period.go:64 discards Atoi's error; a non-empty run of ASCII digits always converts.
      AtoiOfDigits(builder);
      var val := Atoi(builder).GetOr(0);
      builder := [];

      var outcome := AssignUnit(ret, v, timeEnabled, val);
      if outcome.Err? {
        FirstFailure(value, i);
        return outcome;
      }
      ret := outcome.value;
    }
    return Ok(ret);
  }
}

/**
 * Carrying overflow between a period's fields with fixed ratios, and its
 * length as a nanosecond count, taking a year as 365 days and a month as 30.
 */
module PeriodArithmetic {
  import opened Periods

  /** Integer division truncated toward zero, as Go's / on int. */
  function Quo(a: int, b: int): (q: int)
    requires b > 0
    ensures a >= 0 ==> q == a / b
    ensures a < 0 ==> q == -((-a) / b)
  {
    if a >= 0 then a / b else -((-a) / b)
  }

  /** The remainder that goes with Quo, as Go's % on int: it takes the sign of a. */
  function Rem(a: int, b: int): (r: int)
    requires b > 0
    ensures -b < r < b
    ensures a >= 0 ==> 0 <= r
    ensures a <= 0 ==> r <= 0
  {
    if a >= 0 then a % b else -((-a) % b)
  }

  /** Go's division identity: the quotient times the divisor plus the remainder gives back the dividend. */
  lemma QuoRem(a: int, b: int)
    requires b > 0
    ensures b * Quo(a, b) + Rem(a, b) == a
  {
  }

  /**
   * Normalize (period.go:97-107).  Seconds carry into minutes and minutes
   * into hours; hours are then reduced modulo 24 before their day carry is
   * taken, so that carry is always 0.  Weeks fold into days, days carry
   * into months, and the years take only the months' own carry.
   */
  function Normalize(p: Period): (r: Period)
    ensures r.weeks == 0
    ensures p.NonNegative() ==> r.NonNegative()
    ensures p.NonNegative() ==> r.seconds < 60 && r.minutes < 60 && r.hours < 24 && r.days < 30
  {
    var seconds := Rem(p.seconds, 60);
    var minutesCarry := Quo(p.seconds, 60) + p.minutes;
    var minutes := Rem(minutesCarry, 60);
    var hoursCarry := Quo(minutesCarry, 60) + p.hours;
    var hours := Rem(hoursCarry, 24);
    var d := Quo(hours, 24) + p.days + p.weeks * 7;
    var days := Rem(d, 30);
    var months := Rem(p.months, 12) + Quo(d, 30);
    var years := Quo(p.months, 12) + p.years;
    Period(years, months, 0, days, hours, minutes, seconds)
  }

  /**
   * Counting a month as 30 days and a year as 12 months, Normalize keeps the
   * number of days in the date part; weeks become 7 days each.
   */
  lemma NormalizeKeepsDateDays(p: Period)
    ensures Normalize(p).days + 30 * Normalize(p).months + 360 * Normalize(p).years
         == p.days + 7 * p.weeks + 30 * p.months + 360 * p.years
  {
    NormalizeDropsHoursCarry(p);
    QuoRem(p.days + 7 * p.weeks, 30);
    QuoRem(p.months, 12);
  }

  /** The time part of a period in seconds. */
  function TimeOfDay(p: Period): int {
    3600 * p.hours + 60 * p.minutes + p.seconds
  }

  /** Normalize keeps the time part modulo a day and throws the whole days of it away. */
  lemma NormalizeTimeOfDay(p: Period)
    requires p.NonNegative()
    ensures TimeOfDay(Normalize(p)) == TimeOfDay(p) % 86400
  {
    var r := Normalize(p);
    var c1 := p.seconds / 60;
    var m := c1 + p.minutes;
    var c2 := m / 60;
    var h := c2 + p.hours;
    var c3: nat := h / 24;
    assert r.seconds == p.seconds % 60 && r.minutes == m % 60 && r.hours == h % 24;
    assert p.seconds == 60 * c1 + r.seconds;
    assert m == 60 * c2 + r.minutes;
    assert h == 24 * c3 + r.hours;
    assert TimeOfDay(p) == 86400 * c3 + TimeOfDay(r);
    assert 0 <= TimeOfDay(r) < 86400;
    DayRemainder(TimeOfDay(p), c3, TimeOfDay(r));
  }

  lemma DayRemainder(x: int, q: int, r: int)
    requires 0 <= r < 86400 && x == 86400 * q + r
    ensures x % 86400 == r
  {
  }

  /** The period_test.go:77-88 example: the 27 hours' day is dropped, so days come to 15. */
  lemma NormalizeExample()
    ensures Normalize(Period(1, 15, 2, 31, 27, 73, 91)) == Period(2, 4, 0, 15, 4, 14, 31)
  {
  }

  /**
   * The hours are reduced modulo 24 before their day carry is taken, so
   * days, months and years depend on the date fields alone.
   */
  lemma NormalizeDropsHoursCarry(p: Period)
    ensures Normalize(p).days == Rem(p.days + 7 * p.weeks, 30)
    ensures Normalize(p).months == Rem(p.months, 12) + Quo(p.days + 7 * p.weeks, 30)
    ensures Normalize(p).years == Quo(p.months, 12) + p.years
  {
    var minutesCarry := Quo(p.seconds, 60) + p.minutes;
    var hours := Rem(Quo(minutesCarry, 60) + p.hours, 24);
    assert Quo(hours, 24) == 0;
  }

  /** Any number of whole days written as hours normalizes to nothing at all. */
  lemma NormalizeDropsWholeDays(n: nat)
    ensures Normalize(Zero.(hours := 24 * n)) == Zero
  {
    var p := Zero.(hours := 24 * n);
    NormalizeDropsHoursCarry(p);
    assert Quo(p.hours, 24) == n;
  }

  /** On a period without a time part, Normalize only folds weeks into days and carries days and months. */
  lemma NormalizeDateOnly(p: Period)
    requires p.hours == 0 && p.minutes == 0 && p.seconds == 0
    ensures Normalize(p) == Period(Quo(p.months, 12) + p.years,
                                   Rem(p.months, 12) + Quo(p.days + 7 * p.weeks, 30), 0,
                                   Rem(p.days + 7 * p.weeks, 30), 0, 0, 0)
  {
    NormalizeDropsHoursCarry(p);
    var r := Normalize(p);
    assert Quo(0, 60) == 0 && Rem(0, 60) == 0 && Rem(0, 24) == 0;
    assert r.seconds == 0 && r.minutes == 0 && r.hours == 0;
  }

  /**
   * Days carry into the months after the months were reduced modulo 12, so
   * a normalized period can hold 12 months or more.
   */
  lemma NormalizeCarriesDaysAfterMonths(m: int, d: int)
    requires 0 <= m < 12 && 0 <= d
    ensures Normalize(Zero.(months := m, days := d)) == Zero.(months := m + d / 30, days := d % 30)
  {
    var p := Zero.(months := m, days := d);
    NormalizeDateOnly(p);
    assert Quo(m, 12) == 0 && Rem(m, 12) == m;
    assert Quo(d, 30) == d / 30 && Rem(d, 30) == d % 30;
  }

  /** Eleven months and thirty days normalize to twelve months. */
  lemma NormalizeLeavesTwelveMonths()
    ensures Normalize(Zero.(months := 11, days := 30)) == Zero.(months := 12)
  {
    NormalizeCarriesDaysAfterMonths(11, 30);
  }

  /** ... and a second pass turns those 12 months into a year: Normalize is not idempotent. */
  lemma NormalizeNotIdempotent()
    ensures Normalize(Normalize(Zero.(months := 11, days := 30))) != Normalize(Zero.(months := 11, days := 30))
  {
    NormalizeLeavesTwelveMonths();
    NormalizeDateOnly(Zero.(months := 12));
    assert Quo(12, 12) == 1;
  }

  /**
   * For a non-negative period, normalizing twice is normalizing once exactly
   * when the first pass leaves months below 12; otherwise the second pass
   * moves 12 of them into the years.
   */
  lemma NormalizeIdempotentBelowTwelveMonths(p: Period)
    requires p.NonNegative()
    ensures Normalize(Normalize(p)) == Normalize(p) <==> Normalize(p).months < 12
  {
    var r := Normalize(p);
    assert r.NonNegative() && r.months >= 0;
    assert r.days / 30 == 0 && r.days % 30 == r.days;
    if r.months < 12 {
      assert r.seconds / 60 == 0 && r.seconds % 60 == r.seconds;
      assert r.minutes / 60 == 0 && r.minutes % 60 == r.minutes;
      assert r.hours / 24 == 0 && r.hours % 24 == r.hours;
      assert r.months / 12 == 0 && r.months % 12 == r.months;
    } else {
      NormalizeDropsHoursCarry(r);
      assert Normalize(r).months == r.months % 12;
    }
  }

  const Second := 1_000_000_000
  const Minute := 60 * Second
  const Hour := 60 * Minute
  const Day := 24 * Hour

  /** How many seconds one unit of each field counts for in ToDuration; weeks count for none. */
  function UnitSeconds(f: Field): nat {
    match f
    case Years => 365 * 86400
    case Months => 30 * 86400
    case Weeks => 0
    case Days => 86400
    case Hours => 3600
    case Minutes => 60
    case Seconds => 1
  }

  /**
   * ToDuration (period.go:111-114): the period's length in nanoseconds,
   * with a 365-day year and a 30-day month.
   */
  function ToDuration(p: Period): (d: int)
    ensures d == Second * (p.years * UnitSeconds(Years) + p.months * UnitSeconds(Months)
                         + p.weeks * UnitSeconds(Weeks) + p.days * UnitSeconds(Days)
                         + p.hours * UnitSeconds(Hours) + p.minutes * UnitSeconds(Minutes)
                         + p.seconds * UnitSeconds(Seconds))
    ensures p.NonNegative() ==> d >= 0
  {
    var days := p.years * 365 + p.months * 30 + p.days;
    (days * 24 + p.hours) * Hour + p.minutes * Minute + p.seconds * Second
  }

  /** The weeks field has no effect on the duration. */
  lemma ToDurationIgnoresWeeks(p: Period, w: int)
    ensures ToDuration(p.(weeks := w)) == ToDuration(p)
  {
  }

  /** The period_test.go:90-98 example: 12 hours, 30 minutes and 20 seconds. */
  lemma ToDurationExample()
    ensures ToDuration(Zero.(hours := 12, minutes := 30, seconds := 20))
         == 12 * Hour + 30 * Minute + 20 * Second
  {
  }

  /**
   * What Normalize does to the length: the whole days of the time part are
   * lost, weeks start to count, and every year carried out of the months
   * adds the 5 days between 12 months of 30 days and a 365-day year.
   */
  lemma NormalizeDuration(p: Period)
    requires p.NonNegative()
    ensures ToDuration(Normalize(p)) + Day * (TimeOfDay(p) / 86400)
         == ToDuration(p) + Day * (7 * p.weeks + 5 * (Normalize(p).years - p.years))
  {
    var r := Normalize(p);
    NormalizeTimeOfDay(p);
    NormalizeKeepsDateDays(p);
    var c := TimeOfDay(p) / 86400;
    var dr := 365 * r.years + 30 * r.months + r.days;
    var dp := 365 * p.years + 30 * p.months + p.days;
    assert TimeOfDay(p) == 86400 * c + TimeOfDay(r);
    assert dr == dp + 7 * p.weeks + 5 * (r.years - p.years);
    assert ToDuration(r) == Second * (86400 * dr + TimeOfDay(r));
    assert ToDuration(p) == Second * (86400 * dp + TimeOfDay(p));
    DurationShift(dr, dp, TimeOfDay(r), TimeOfDay(p), c, 7 * p.weeks + 5 * (r.years - p.years));
  }

  /** The arithmetic step of NormalizeDuration, with the constants written out. */
  lemma DurationShift(dr: int, dp: int, tr: int, tp: int, c: int, extra: int)
    requires tp == 86400 * c + tr && dr == dp + extra
    ensures Second * (86400 * dr + tr) + Day * c == Second * (86400 * dp + tp) + Day * extra
  {
    assert Second == 1_000_000_000 && Day == 86_400_000_000_000;
  }

}
