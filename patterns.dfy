/** The small regular expressions that gate the classifiers, written out as string
    predicates. Each follows the regular expression's matching rules exactly: since
    the character classes involved are disjoint at every point where a repetition
    ends, the greedy run is the only one that can lead to a match, so no
    backtracking is needed. */
module Patterns {

  /** `\d` (ASCII digits only). */
  predicate IsDigit(c: char) { '0' <= c <= '9' }

  /** `\s`: the characters Python's str.isspace accepts. */
  predicate IsSpace(c: char)
  {
    c == ' ' || '\t' <= c <= '\r' || '\U{1C}' <= c <= '\U{1F}' || c == '\U{85}' || c == '\U{A0}'
    || c == '\U{1680}' || '\U{2000}' <= c <= '\U{200A}' || c == '\U{2028}' || c == '\U{2029}'
    || c == '\U{202F}' || c == '\U{205F}' || c == '\U{3000}'
  }

  /** `\w` (ASCII letters, digits and underscore only). */
  predicate IsWord(c: char) { IsDigit(c) || 'a' <= c <= 'z' || 'A' <= c <= 'Z' || c == '_' }

  predicate IsSign(c: char) { c == '+' || c == '-' }

  datatype CharClass = Digits | Spaces | WordChars

  predicate InClass(c: char, k: CharClass)
  {
    match k
    case Digits => IsDigit(c)
    case Spaces => IsSpace(c)
    case WordChars => IsWord(c)
  }

  /** Length of the longest prefix of s whose characters are all in class k: what a
      greedy `\d*`, `\s*` or `\w*` consumes. */
  function Run(s: string, k: CharClass): (n: nat)
    ensures n <= |s|
    ensures forall i | 0 <= i < n :: InClass(s[i], k)
    ensures n == |s| || !InClass(s[n], k)
  {
    if s != [] && InClass(s[0], k) then 1 + Run(s[1..], k) else 0
  }

  /** The longest run is determined by where the class first fails. */
  lemma RunIs(s: string, k: CharClass, n: nat)
    requires n <= |s|
    requires forall i | 0 <= i < n :: InClass(s[i], k)
    requires n == |s| || !InClass(s[n], k)
    ensures Run(s, k) == n
  {
  }

  /** A run that ends inside s is not lengthened by what follows s. */
  lemma RunAppend(s: string, t: string, k: CharClass)
    requires Run(s, k) < |s|
    ensures Run(s + t, k) == Run(s, k)
  {
    var n := Run(s, k);
    assert (s + t)[n] == s[n];
    RunIs(s + t, k, n);
  }

  /** A decimal numeral, as `\d+` captures it. */
  predicate Numeral(d: string)
  {
    d != [] && forall i | 0 <= i < |d| :: IsDigit(d[i])
  }

  function DigitValue(c: char): nat
    requires IsDigit(c)
  {
    c as int - '0' as int
  }

  /** int() of a numeral. */
  function NumeralValue(d: string): nat
    requires forall i | 0 <= i < |d| :: IsDigit(d[i])
  {
    if d == [] then 0
    else 10 * NumeralValue(d[..|d| - 1]) + DigitValue(d[|d| - 1])
  }

  // ---------------------------------------------------------------------------
  // is_complex (infer_data_types.py:7-10): a search anywhere in the text for an
  // optional "(", an optional sign, digits, a sign, digits and "j", then an optional
  // ")", with spaces allowed between the parts.
  //
  // Each predicate below is one state of the pattern: it reads the first character
  // and moves to the next state, with a disjunction wherever the pattern may either
  // repeat or go on, so backtracking is covered.
  // ---------------------------------------------------------------------------

  /** The core of the complex pattern (digits, optional spaces, a sign, optional spaces,
      digits, optional spaces, "j") matches at the start of t. The optional parts before and
      after it in the pattern can always match empty, so a search for the whole
      pattern succeeds exactly where this core matches. */
  predicate ComplexAt(t: string)
  {
    t != [] && IsDigit(t[0]) && (ComplexAt(t[1..]) || SignThenImaginary(t[1..]))
  }

  /** Optional spaces, a sign, then the imaginary part, at the start of u. */
  predicate SignThenImaginary(u: string)
  {
    u != [] && ((IsSign(u[0]) && Imaginary(u[1..])) || (IsSpace(u[0]) && SignThenImaginary(u[1..])))
  }

  /** Optional spaces, at least one digit, optional spaces and "j", at the start of v. */
  predicate Imaginary(v: string)
  {
    v != [] && ((IsSpace(v[0]) && Imaginary(v[1..])) || (IsDigit(v[0]) && ImaginaryRest(v[1..])))
  }

  /** Further digits, optional spaces and "j", at the start of v. */
  predicate ImaginaryRest(v: string)
  {
    UnitJ(v) || (v != [] && IsDigit(v[0]) && ImaginaryRest(v[1..]))
  }

  /** Optional spaces and "j", at the start of w. */
  predicate UnitJ(w: string)
  {
    w != [] && (w[0] == 'j' || (IsSpace(w[0]) && UnitJ(w[1..])))
  }

  /** The pattern matches in s starting at position i. */
  predicate ComplexFrom(s: string, i: int)
  {
    0 <= i < |s| && ComplexAt(s[i..])
  }

  /** is_complex (infer_data_types.py): an unanchored search. */
  predicate IsComplex(s: string)
  {
    exists i | 0 <= i < |s| :: ComplexFrom(s, i)
  }

  lemma {:induction false} UnitJAppend(w: string, q: string)
    requires UnitJ(w)
    ensures UnitJ(w + q)
  {
    assert (w + q)[0] == w[0];
    if w[0] != 'j' {
      assert (w + q)[1..] == w[1..] + q;
      UnitJAppend(w[1..], q);
    }
  }

  lemma {:induction false} ImaginaryRestAppend(v: string, q: string)
    requires ImaginaryRest(v)
    ensures ImaginaryRest(v + q)
  {
    if UnitJ(v) {
      UnitJAppend(v, q);
    } else {
      assert (v + q)[0] == v[0] && (v + q)[1..] == v[1..] + q;
      ImaginaryRestAppend(v[1..], q);
    }
  }

  lemma {:induction false} ImaginaryAppend(v: string, q: string)
    requires Imaginary(v)
    ensures Imaginary(v + q)
  {
    assert (v + q)[0] == v[0] && (v + q)[1..] == v[1..] + q;
    if IsSpace(v[0]) && Imaginary(v[1..]) {
      ImaginaryAppend(v[1..], q);
    } else {
      ImaginaryRestAppend(v[1..], q);
    }
  }

  lemma {:induction false} SignThenImaginaryAppend(u: string, q: string)
    requires SignThenImaginary(u)
    ensures SignThenImaginary(u + q)
  {
    assert (u + q)[0] == u[0] && (u + q)[1..] == u[1..] + q;
    if IsSign(u[0]) && Imaginary(u[1..]) {
      ImaginaryAppend(u[1..], q);
    } else {
      SignThenImaginaryAppend(u[1..], q);
    }
  }

  /** A match at the start of t survives anything appended to t. */
  lemma {:induction false} ComplexAtAppend(t: string, q: string)
    requires ComplexAt(t)
    ensures ComplexAt(t + q)
  {
    assert (t + q)[0] == t[0] && (t + q)[1..] == t[1..] + q;
    if ComplexAt(t[1..]) {
      ComplexAtAppend(t[1..], q);
    } else {
      SignThenImaginaryAppend(t[1..], q);
    }
  }

  /** A cell that contains a complex-looking substring counts, whatever surrounds it. */
  lemma IsComplexInfix(p: string, t: string, q: string)
    requires ComplexAt(t)
    ensures IsComplex(p + t + q)
  {
    ComplexAtAppend(t, q);
    var s := p + t + q;
    assert s[|p|..] == t + q;
    assert ComplexFrom(s, |p|);
  }

  lemma {:induction false} ImaginaryRestOfDigits(y: string)
    requires forall i | 0 <= i < |y| :: IsDigit(y[i])
    ensures ImaginaryRest(y + "j")
  {
    if y == [] {
      assert UnitJ("j");
    } else {
      assert (y + "j")[1..] == y[1..] + "j";
      ImaginaryRestOfDigits(y[1..]);
    }
  }

  lemma {:induction false} ComplexAtLiteral(x: string, sign: char, y: string)
    requires Numeral(x) && Numeral(y) && IsSign(sign)
    ensures ComplexAt(x + [sign] + y + "j")
  {
    var t := x + [sign] + y + "j";
    if |x| == 1 {
      assert t[1..] == [sign] + (y + "j");
      assert (y + "j")[1..] == y[1..] + "j";
      ImaginaryRestOfDigits(y[1..]);
      assert Imaginary(y + "j");
    } else {
      assert t[1..] == x[1..] + [sign] + y + "j";
      ComplexAtLiteral(x[1..], sign, y);
    }
  }

  /** Every `<digits><sign><digits>j` literal is complex-looking, whatever surrounds it. */
  lemma ComplexLiteral(p: string, x: string, sign: char, y: string, q: string)
    requires Numeral(x) && Numeral(y) && IsSign(sign)
    ensures IsComplex(p + (x + [sign] + y + "j") + q)
  {
    ComplexAtLiteral(x, sign, y);
    IsComplexInfix(p, x + [sign] + y + "j", q);
  }

  lemma {:induction false} NoSignNotSignThen(u: string)
    requires forall i | 0 <= i < |u| :: !IsSign(u[i])
    ensures !SignThenImaginary(u)
  {
    if u != [] {
      NoSignNotSignThen(u[1..]);
    }
  }

  lemma {:induction false} NoSignNotComplexAt(t: string)
    requires forall i | 0 <= i < |t| :: !IsSign(t[i])
    ensures !ComplexAt(t)
  {
    if t != [] {
      NoSignNotComplexAt(t[1..]);
      NoSignNotSignThen(t[1..]);
    }
  }

  /** A cell without a '+' or '-' is never complex-looking. */
  lemma NoSignNotComplex(s: string)
    requires forall i | 0 <= i < |s| :: !IsSign(s[i])
    ensures !IsComplex(s)
  {
    forall i | 0 <= i < |s| ensures !ComplexFrom(s, i) {
      NoSignNotComplexAt(s[i..]);
    }
  }

  // ---------------------------------------------------------------------------
  // The six date shapes, each applied with str.match (anchored at the start)
  // ---------------------------------------------------------------------------

  /** Python's `$`: the end of the string, or just before a final newline. */
  predicate EndsAt(s: string, k: nat)
  {
    k == |s| || (k + 1 == |s| && s[k] == '\n')
  }

  datatype Slot = AnyDigit | Exactly(c: char)

  predicate SlotAccepts(slot: Slot, c: char)
  {
    match slot
    case AnyDigit => IsDigit(c)
    case Exactly(x) => c == x
  }

  /** s is exactly the fixed-width shape, allowing only a final newline after it. */
  predicate MatchesShape(s: string, shape: seq<Slot>)
  {
    |shape| <= |s| && (forall i | 0 <= i < |shape| :: SlotAccepts(shape[i], s[i])) && EndsAt(s, |shape|)
  }

  const TwoDigits: seq<Slot> := [AnyDigit, AnyDigit]
  const FourDigits: seq<Slot> := [AnyDigit, AnyDigit, AnyDigit, AnyDigit]

  /** Four digits, two digits and two digits, separated by '-'. */
  const YearMonthDayDashed: seq<Slot> := FourDigits + [Exactly('-')] + TwoDigits + [Exactly('-')] + TwoDigits
  /** Two digits, two digits and four digits, separated by '/'. */
  const MonthDayYearSlashed: seq<Slot> := TwoDigits + [Exactly('/')] + TwoDigits + [Exactly('/')] + FourDigits
  /** Two digits, two digits and four digits, separated by '-'. */
  const DayMonthYearDashed: seq<Slot> := TwoDigits + [Exactly('-')] + TwoDigits + [Exactly('-')] + FourDigits
  /** Four digits, two digits and two digits, separated by '.'. */
  const YearMonthDayDotted: seq<Slot> := FourDigits + [Exactly('.')] + TwoDigits + [Exactly('.')] + TwoDigits
  /** Four digits, two digits and two digits, separated by '/'. */
  const YearMonthDaySlashed: seq<Slot> := FourDigits + [Exactly('/')] + TwoDigits + [Exactly('/')] + TwoDigits

  /** Two digits, one space, a word, one space and four digits, as in "05 March 2021". */
  predicate DayMonthNameYear(s: string)
  {
    3 <= |s| && IsDigit(s[0]) && IsDigit(s[1]) && IsSpace(s[2]) && MonthNameThenYear(s[3..])
  }

  /** A word, one space and four digits ending the text, at the start of r. */
  predicate MonthNameThenYear(r: string)
  {
    r != [] && IsWord(r[0]) &&
    (MonthNameThenYear(r[1..]) || (2 <= |r| && IsSpace(r[1]) && MatchesShape(r[2..], FourDigits)))
  }

  /** The cell has one of the six date shapes. */
  predicate LooksLikeDate(s: string)
  {
    MatchesShape(s, YearMonthDayDashed) || MatchesShape(s, MonthDayYearSlashed)
    || MatchesShape(s, DayMonthYearDashed) || MatchesShape(s, YearMonthDayDotted)
    || MatchesShape(s, YearMonthDaySlashed) || DayMonthNameYear(s)
  }

  /** Every date shape begins with two digits. */
  lemma DateShapeStartsWithDigits(s: string)
    requires LooksLikeDate(s)
    ensures 2 <= |s| && IsDigit(s[0]) && IsDigit(s[1])
  {
    if !DayMonthNameYear(s) {
      var shape :| shape in [YearMonthDayDashed, MonthDayYearSlashed, DayMonthYearDashed,
                             YearMonthDayDotted, YearMonthDaySlashed] && MatchesShape(s, shape);
      assert shape[0] == AnyDigit && shape[1] == AnyDigit;
      assert SlotAccepts(shape[0], s[0]) && SlotAccepts(shape[1], s[1]);
    }
  }

  predicate AllDigitSlots(shape: seq<Slot>)
  {
    forall i | 0 <= i < |shape| :: shape[i] == AnyDigit
  }

  /** Digits in the digit runs and the two separators in between fill the shape. */
  lemma {:induction false} FilledShape(x: string, s1: char, y: string, s2: char, z: string,
                                       xs: seq<Slot>, ys: seq<Slot>, zs: seq<Slot>)
    requires Numeral(x) && Numeral(y) && Numeral(z)
    requires |x| == |xs| && |y| == |ys| && |z| == |zs|
    requires AllDigitSlots(xs) && AllDigitSlots(ys) && AllDigitSlots(zs)
    ensures MatchesShape(x + [s1] + y + [s2] + z, xs + [Exactly(s1)] + ys + [Exactly(s2)] + zs)
  {
    var s := x + [s1] + y + [s2] + z;
    var shape := xs + [Exactly(s1)] + ys + [Exactly(s2)] + zs;
    assert |s| == |shape|;
    forall i | 0 <= i < |shape|
      ensures SlotAccepts(shape[i], s[i])
    {
      var p, q := |x| + 1, |x| + 1 + |y| + 1;
      if i < |x| {
        assert shape[i] == xs[i] && s[i] == x[i];
      } else if i == |x| {
        assert shape[i] == Exactly(s1) && s[i] == s1;
      } else if i < p + |y| {
        assert shape[i] == ys[i - p] && s[i] == y[i - p];
      } else if i == p + |y| {
        assert shape[i] == Exactly(s2) && s[i] == s2;
      } else {
        assert shape[i] == zs[i - q] && s[i] == z[i - q];
      }
    }
  }

  lemma FourDigitYear(y: string)
    requires Numeral(y) && |y| == 4
    ensures MatchesShape(y, FourDigits)
  {
    assert forall i | 0 <= i < 4 :: SlotAccepts(FourDigits[i], y[i]);
  }

  /** Every one of the five numeric date layouts, written with digits, has a date shape. */
  lemma NumericDatesMatch(year: string, month: string, day: string)
    requires Numeral(year) && Numeral(month) && Numeral(day)
    requires |year| == 4 && |month| == 2 && |day| == 2
    ensures LooksLikeDate(year + "-" + month + "-" + day)
    ensures LooksLikeDate(month + "/" + day + "/" + year)
    ensures LooksLikeDate(day + "-" + month + "-" + year)
    ensures LooksLikeDate(year + "." + month + "." + day)
    ensures LooksLikeDate(year + "/" + month + "/" + day)
  {
    FilledShape(year, '-', month, '-', day, FourDigits, TwoDigits, TwoDigits);
    FilledShape(month, '/', day, '/', year, TwoDigits, TwoDigits, FourDigits);
    FilledShape(day, '-', month, '-', year, TwoDigits, TwoDigits, FourDigits);
    FilledShape(year, '.', month, '.', day, FourDigits, TwoDigits, TwoDigits);
    FilledShape(year, '/', month, '/', day, FourDigits, TwoDigits, TwoDigits);
  }

  /** A word, a space and a four-digit year, as the tail of a "05 March 2021" date. */
  lemma {:induction false} WordThenYear(w: string, sp: char, year: string)
    requires w != [] && (forall i | 0 <= i < |w| :: IsWord(w[i])) && IsSpace(sp)
    requires Numeral(year) && |year| == 4
    ensures MonthNameThenYear(w + [sp] + year)
    decreases |w|
  {
    var r := w + [sp] + year;
    assert r[0] == w[0];
    if |w| == 1 {
      assert r[1] == sp && r[2..] == year;
      FourDigitYear(year);
    } else {
      assert r[1..] == w[1..] + [sp] + year;
      WordThenYear(w[1..], sp, year);
    }
  }

  /** Two digits, a space, a word, a space and four digits have the sixth date shape. */
  lemma NamedMonthDateMatches(day: string, sp1: char, w: string, sp2: char, year: string)
    requires Numeral(day) && |day| == 2 && IsSpace(sp1) && IsSpace(sp2)
    requires w != [] && forall i | 0 <= i < |w| :: IsWord(w[i])
    requires Numeral(year) && |year| == 4
    ensures LooksLikeDate(day + [sp1] + w + [sp2] + year)
  {
    var s := day + [sp1] + w + [sp2] + year;
    WordThenYear(w, sp2, year);
    assert s[3..] == w + [sp2] + year;
    assert s[0] == day[0] && s[1] == day[1] && s[2] == sp1;
  }

  // ---------------------------------------------------------------------------
  // Verbose durations: a prefix of digits, optional spaces and one of seven unit words
  // ---------------------------------------------------------------------------

  const DurationUnits: seq<string> := ["year", "month", "week", "day", "hour", "minute", "second"]

  /** A prefix of s is digits, optional spaces and one of the unit words (the optional
      plural "s" never decides a prefix match). */
  predicate StartsWithDuration(s: string)
  {
    s != [] && IsDigit(s[0]) && (StartsWithDuration(s[1..]) || SpacesThenUnit(s[1..]))
  }

  /** Optional spaces and a unit word at the start of r. */
  predicate SpacesThenUnit(r: string)
  {
    (exists u | u in DurationUnits :: u <= r) || (r != [] && IsSpace(r[0]) && SpacesThenUnit(r[1..]))
  }

  lemma {:induction false} SpacesThenUnitOf(w: string, u: string, rest: string)
    requires (forall i | 0 <= i < |w| :: IsSpace(w[i])) && u in DurationUnits
    ensures SpacesThenUnit(w + u + rest)
  {
    if w == [] {
      assert u <= w + u + rest;
    } else {
      assert (w + u + rest)[1..] == w[1..] + u + rest;
      SpacesThenUnitOf(w[1..], u, rest);
    }
  }

  /** Any numeral, any spacing and any of the units, followed by anything. */
  lemma {:induction false} DurationPrefix(d: string, w: string, u: string, rest: string)
    requires Numeral(d) && (forall i | 0 <= i < |w| :: IsSpace(w[i])) && u in DurationUnits
    ensures StartsWithDuration(d + w + u + rest)
  {
    var s := d + w + u + rest;
    assert s[1..] == d[1..] + w + u + rest;
    if |d| == 1 {
      SpacesThenUnitOf(w, u, rest);
      assert s[1..] == w + u + rest;
    } else {
      DurationPrefix(d[1..], w, u, rest);
    }
  }

  // ---------------------------------------------------------------------------
  // The ISO year form: "P", digits and "Y" making up the whole cell
  // ---------------------------------------------------------------------------

  /** Where `$` can match after the final 'Y': the end, or before a final newline. */
  function YearEnd(s: string): nat
  {
    if s != [] && s[|s| - 1] == '\n' then |s| - 1 else |s|
  }

  predicate IsoYearShape(s: string)
  {
    var e := YearEnd(s);
    3 <= e && s[0] == 'P' && s[e - 1] == 'Y' && Numeral(s[1..e - 1])
  }

  /** The year count of a cell of the form `P<digits>Y`. */
  function IsoYears(s: string): nat
    requires IsoYearShape(s)
  {
    NumeralValue(s[1..YearEnd(s) - 1])
  }

  lemma IsoYearOf(d: string)
    requires Numeral(d)
    ensures IsoYearShape("P" + d + "Y") && IsoYears("P" + d + "Y") == NumeralValue(d)
  {
    var s := "P" + d + "Y";
    assert s[1..|s| - 1] == d;
  }

  // ---------------------------------------------------------------------------
  // Literal text replacement, as re.sub with a pattern that has no special characters
  // ---------------------------------------------------------------------------

  /** Replaces every occurrence of pat in s, scanning left to right without overlaps. */
  function ReplaceAll(s: string, pat: string, rep: string): string
    requires pat != []
    decreases |s|
  {
    if |s| < |pat| then s
    else if s[..|pat|] == pat then rep + ReplaceAll(s[|pat|..], pat, rep)
    else [s[0]] + ReplaceAll(s[1..], pat, rep)
  }

  /** Text without the pattern's first character passes through unchanged. */
  lemma {:induction false} ReplaceAllSkip(d: string, t: string, pat: string, rep: string)
    requires pat != []
    requires forall i | 0 <= i < |d| :: d[i] != pat[0]
    ensures ReplaceAll(d + t, pat, rep) == d + ReplaceAll(t, pat, rep)
    decreases |d|
  {
    if d == [] {
      assert d + t == t;
    } else {
      var s := d + t;
      if |s| < |pat| {
        assert ReplaceAll(t, pat, rep) == t;
      } else {
        assert s[..|pat|][0] == d[0];
        assert s[1..] == d[1..] + t;
        ReplaceAllSkip(d[1..], t, pat, rep);
        calc {
          ReplaceAll(s, pat, rep);
          [s[0]] + ReplaceAll(s[1..], pat, rep);
          [d[0]] + (d[1..] + ReplaceAll(t, pat, rep));
          d + ReplaceAll(t, pat, rep);
        }
      }
    }
  }

  lemma ReplaceAllHead(pat: string, t: string, rep: string)
    requires pat != []
    ensures ReplaceAll(pat + t, pat, rep) == rep + ReplaceAll(t, pat, rep)
  {
    var s := pat + t;
    assert s[..|pat|] == pat;
    assert s[|pat|..] == t;
  }

  /** Text without the pattern's first character, followed by the pattern once. */
  lemma ReplaceTail(d: string, pat: string, rep: string)
    requires pat != []
    requires forall i | 0 <= i < |d| :: d[i] != pat[0]
    ensures ReplaceAll(d + pat, pat, rep) == d + rep
  {
    ReplaceAllSkip(d, pat, pat, rep);
    assert pat == pat + [];
    ReplaceAllHead(pat, [], rep);
    assert rep + ReplaceAll([], pat, rep) == rep;
  }
}
