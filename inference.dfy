/** infer_and_convert_data_types (backend/api/utils/infer_data_types.py): every column
    of text is offered to a fixed chain of classifiers; the first that accepts decides
    the column's new type and contents, and a column no classifier accepts stays text. */
module Inference {
  import opened Frames
  import opened Patterns

  /** error_threshold and category_threshold. */
  datatype Thresholds = Thresholds(error: Ratio, category: Ratio)

  predicate ValidThresholds(th: Thresholds)
  {
    th.error.den > 0 && th.category.den > 0
  }

  /** The defaults of the function's signature: 0.3 and 0.8. */
  const Defaults := Thresholds(Ratio(3, 10), Ratio(8, 10))

  /** What one classifier makes of a column: it converts it, passes it on, or raises
      (complex() on a cell the gate let through). */
  datatype Verdict = Accepted(data: ColumnData) | Declined | Raised

  /** How many cells satisfy p (a `.sum()` over a boolean series). */
  function Count(cells: seq<string>, p: string -> bool): (k: nat)
    ensures k <= |cells|
    ensures k == 0 <==> forall i | 0 <= i < |cells| :: !p(cells[i])
    ensures k == |cells| <==> forall i | 0 <= i < |cells| :: p(cells[i])
  {
    if cells == [] then 0
    else
      var rest := Count(cells[1..], p);
      assert forall i | 1 <= i < |cells| :: cells[i] == cells[1..][i - 1];
      (if p(cells[0]) then 1 else 0) + rest
  }

  /** The distinct cells (`unique()`; no cell is null, every one is a string). */
  function Distinct(cells: seq<string>): set<string>
  {
    set i | 0 <= i < |cells| :: cells[i]
  }

  /** The column converted cell by cell. */
  function MapCells(cells: seq<string>, f: string -> Value): (vs: seq<Value>)
    ensures |vs| == |cells| && forall i | 0 <= i < |cells| :: vs[i] == f(cells[i])
  {
    seq(|cells|, i requires 0 <= i < |cells| => f(cells[i]))
  }

  // ---------------------------------------------------------------------------
  // The classifiers, in the order the function tries them
  // ---------------------------------------------------------------------------

  predicate Integral(x: real)
  {
    x.Floor as real == x
  }

  /** pd.to_numeric(errors='coerce') on one cell, then astype(float) or astype(Int64). */
  function NumericCell(x: Option<real>, asInt: bool): Value
  {
    match x
    case None => Missing
    case Some(v) => if asInt then Int(v.Floor) else Real(v)
  }

  /** The numeric classifier (infer_data_types.py, lines 18-29). The error ratio of an empty column is 0/0, a NaN under numpy, and
      no comparison with NaN holds, so an empty column is declined here. */
  function NumericStep(cells: seq<string>, th: Thresholds, lib: Library): Verdict
  {
    var misses := Count(cells, c => lib.toNumeric(c).None?);
    if |cells| > 0 && AtMost(misses, |cells|, th.error) then
      if forall i | 0 <= i < |cells| :: lib.toNumeric(cells[i]).Some? ==> Integral(lib.toNumeric(cells[i]).value)
      then Accepted(Typed(Int64, MapCells(cells, c => NumericCell(lib.toNumeric(c), true))))
      else Accepted(Typed(Float64, MapCells(cells, c => NumericCell(lib.toNumeric(c), false))))
    else Declined
  }

  /** The string members of {0, 1, '0', '1', True, False, 'True', 'False'}; a cell is
      always a string, so the other four can never be among its values. */
  const BoolLiterals: set<string> := {"0", "1", "True", "False"}

  /** The boolean classifier (infer_data_types.py, lines 31-36): every distinct value is
      one of the literals, and "1" and "True" become true. */
  function BooleanStep(cells: seq<string>): Verdict
  {
    if Distinct(cells) <= BoolLiterals
    then Accepted(Typed(Bool, MapCells(cells, c => Flag(c == "1" || c == "True"))))
    else Declined
  }

  /** The complex classifier (infer_data_types.py, lines 38-41): more than 1 - error_threshold of the cells contain a complex literal;
      each such cell goes through complex(), whose failure escapes the function. */
  function ComplexStep(cells: seq<string>, th: Thresholds, lib: Library): Verdict
  {
    var hits := Count(cells, c => IsComplex(c));
    if AboveComplement(hits, |cells|, th.error) then
      if exists i | 0 <= i < |cells| :: IsComplex(cells[i]) && lib.toComplex(cells[i]).None?
      then Raised
      else Accepted(Typed(Complex128, MapCells(cells, c => ComplexCell(c, lib))))
    else Declined
  }

  function ComplexCell(c: string, lib: Library): Value
  {
    if IsComplex(c) && lib.toComplex(c).Some? then Cplx(lib.toComplex(c).value) else Missing
  }

  function TimeCell(x: Option<Timestamp>): Value
  {
    match x
    case None => Missing
    case Some(t) => Time(t)
  }

  /** Some cell begins with one of the six date shapes. */
  predicate SomeDateShaped(cells: seq<string>)
  {
    exists i | 0 <= i < |cells| :: LooksLikeDate(cells[i])
  }

  /** The datetime classifier (infer_data_types.py, lines 43-61): attempted when some cell has a date shape; kept when the parse
      failures are at most error_threshold of the cells. */
  function DateStep(cells: seq<string>, th: Thresholds, lib: Library): Verdict
  {
    if SomeDateShaped(cells) then
      var misses := Count(cells, c => lib.toDatetime(c).None?);
      if AtMost(misses, |cells|, th.error)
      then Accepted(Typed(DateTime64, MapCells(cells, c => TimeCell(lib.toDatetime(c)))))
      else Declined
    else Declined
  }

  function SpanCell(x: Option<Duration>): Value
  {
    match x
    case None => Missing
    case Some(d) => Span(d)
  }

  /** The verbose-duration classifier (infer_data_types.py, lines 63-76): one cell that starts like "3 days" converts the whole column. */
  function VerboseDurationStep(cells: seq<string>, lib: Library): Verdict
  {
    if exists i | 0 <= i < |cells| :: StartsWithDuration(cells[i])
    then Accepted(Typed(TimeDelta64, MapCells(cells, c => SpanCell(lib.toTimedelta(c)))))
    else Declined
  }

  /** The text the ISO-year step hands to the duration parser, as written in
      infer_data_types.py, lines 81-82: a year-shaped cell drops its leading 'P', then
      every "Y" becomes " years", every " years" becomes " days" and every "days"
      becomes "365 days". */
  function IsoYearRewrite(c: string): string
  {
    ReplaceAll(ReplaceAll(ReplaceAll(Unwrapped(c), "Y", " years"), " years", " days"), "days", "365 days")
  }

  /** The first rewrite: a cell of the year shape loses its leading 'P'; any other cell
      is kept. */
  function Unwrapped(c: string): string
  {
    if IsoYearShape(c) then c[1..YearEnd(c) - 1] + "Y" + c[YearEnd(c)..] else c
  }

  /** One cell of the ISO-year step as written. */
  function IsoYearCellAsWritten(c: string, lib: Library): Value
  {
    SpanCell(lib.toTimedelta(IsoYearRewrite(c)))
  }

  const NanosPerDay := 86400 * 1000000000

  /** One cell of the ISO-year step as intended: "P<n>Y" is n years of 365 days; any
      other cell is rewritten and parsed as the code does. */
  function IsoYearCell(c: string, lib: Library): (v: Value)
    ensures IsoYearShape(c) ==> v == Span(Duration(365 * IsoYears(c) * NanosPerDay))
  {
    if IsoYearShape(c) then Span(Duration(365 * IsoYears(c) * NanosPerDay))
    else IsoYearCellAsWritten(c, lib)
  }

  /** The ISO-year classifier (infer_data_types.py, lines 79-83): some cell is exactly "P<digits>Y". */
  function IsoYearStep(cells: seq<string>, lib: Library): Verdict
  {
    if exists i | 0 <= i < |cells| :: IsoYearShape(cells[i])
    then Accepted(Typed(TimeDelta64, MapCells(cells, c => IsoYearCell(c, lib))))
    else Declined
  }

  /** The categorical classifier (infer_data_types.py, lines 85-93): few distinct values make a category; fillna does nothing here,
      since no cell is null. */
  function CategoricalStep(cells: seq<string>, th: Thresholds): Verdict
  {
    if Below(|Distinct(cells)|, |cells|, th.category)
    then Accepted(Typed(Category, MapCells(cells, c => Label(c))))
    else Declined
  }

  datatype Classifier = Numeric | Boolean | ComplexNumbers | Dates | VerboseDurations | IsoYearDurations | Categorical

  /** The order of the chain. */
  const Chain: seq<Classifier> :=
    [Numeric, Boolean, ComplexNumbers, Dates, VerboseDurations, IsoYearDurations, Categorical]

  /** Every classifier keeps the column's length when it converts it. */
  function Try(k: Classifier, cells: seq<string>, th: Thresholds, lib: Library): (r: Verdict)
    ensures r.Accepted? ==> Length(r.data) == |cells| && r.data.Typed?
    ensures r.Raised? ==> k == ComplexNumbers
  {
    match k
    case Numeric => NumericStep(cells, th, lib)
    case Boolean => BooleanStep(cells)
    case ComplexNumbers => ComplexStep(cells, th, lib)
    case Dates => DateStep(cells, th, lib)
    case VerboseDurations => VerboseDurationStep(cells, lib)
    case IsoYearDurations => IsoYearStep(cells, lib)
    case Categorical => CategoricalStep(cells, th)
  }

  /** The first classifier in steps that does not decline decides; when all decline the
      column stays text (infer_data_types.py, line 96: strings cast to strings). */
  function RunChain(steps: seq<Classifier>, cells: seq<string>, th: Thresholds, lib: Library): (r: Verdict)
    ensures !r.Declined?
    ensures r.Accepted? ==> Length(r.data) == |cells|
    ensures r.Raised? ==> ComplexNumbers in steps
  {
    if steps == [] then Accepted(Text(cells))
    else
      var v := Try(steps[0], cells, th, lib);
      if v.Declined? then RunChain(steps[1..], cells, th, lib) else v
  }

  /** The outcome for one column. */
  function InferColumn(cells: seq<string>, th: Thresholds, lib: Library): Verdict
  {
    RunChain(Chain, cells, th, lib)
  }

  // ---------------------------------------------------------------------------
  // The chain's order
  // ---------------------------------------------------------------------------

  /** The first classifier that does not decline decides the column; those after it
      never see it. */
  lemma {:induction false} FirstDecisiveWins(steps: seq<Classifier>, k: nat, cells: seq<string>, th: Thresholds, lib: Library)
    requires k < |steps|
    requires forall j | 0 <= j < k :: Try(steps[j], cells, th, lib).Declined?
    requires !Try(steps[k], cells, th, lib).Declined?
    ensures RunChain(steps, cells, th, lib) == Try(steps[k], cells, th, lib)
  {
    if k > 0 {
      assert Try(steps[0], cells, th, lib).Declined?;
      assert forall j | 0 <= j < k - 1 :: steps[1..][j] == steps[j + 1];
      FirstDecisiveWins(steps[1..], k - 1, cells, th, lib);
    }
  }

  /** A column every classifier declines is kept as text, and only such a column. */
  lemma {:induction false} AllDeclineIsText(steps: seq<Classifier>, cells: seq<string>, th: Thresholds, lib: Library)
    ensures RunChain(steps, cells, th, lib) == Accepted(Text(cells))
        <==> forall j | 0 <= j < |steps| :: Try(steps[j], cells, th, lib).Declined?
  {
    if steps != [] {
      assert forall j | 0 <= j < |steps| - 1 :: steps[1..][j] == steps[j + 1];
      AllDeclineIsText(steps[1..], cells, th, lib);
    }
  }

  /** Skipping the classifiers that declined. */
  lemma {:induction false} DeclinedPrefix(steps: seq<Classifier>, k: nat, cells: seq<string>, th: Thresholds, lib: Library)
    requires k <= |steps|
    requires forall j | 0 <= j < k :: Try(steps[j], cells, th, lib).Declined?
    ensures RunChain(steps, cells, th, lib) == RunChain(steps[k..], cells, th, lib)
  {
    if k > 0 {
      assert Try(steps[0], cells, th, lib).Declined?;
      assert forall j | 0 <= j < k - 1 :: steps[1..][j] == steps[j + 1];
      DeclinedPrefix(steps[1..], k - 1, cells, th, lib);
      assert steps[1..][k - 1..] == steps[k..];
    }
  }

  // ---------------------------------------------------------------------------
  // The classifiers' gates and conversions
  // ---------------------------------------------------------------------------

  /** The numeric gate is `failures / n <= error_threshold`, inclusive; an empty column
      is declined. Accepted columns are Int64 exactly when every parsed value is
      integral; a rejected cell becomes missing and a parsed one keeps its value. */
  lemma NumericOutcome(cells: seq<string>, th: Thresholds, lib: Library)
    requires ValidThresholds(th)
    ensures var misses := Count(cells, c => lib.toNumeric(c).None?);
      NumericStep(cells, th, lib).Accepted? <==>
        |cells| > 0 && (misses as real) / (|cells| as real) <= AsReal(th.error)
    ensures !NumericStep(cells, th, lib).Raised?
    ensures NumericStep(cells, th, lib).Accepted? ==>
      var data := NumericStep(cells, th, lib).data;
      (data.dtype == Int64 <==>
        forall i | 0 <= i < |cells| :: lib.toNumeric(cells[i]).Some? ==> Integral(lib.toNumeric(cells[i]).value)) &&
      (data.dtype == Int64 || data.dtype == Float64)
    ensures NumericStep(cells, th, lib).Accepted? ==>
      var data := NumericStep(cells, th, lib).data;
      (forall i | 0 <= i < |cells| :: lib.toNumeric(cells[i]).None? ==> data.values[i] == Missing) &&
      (data.dtype == Int64 ==>
        forall i | 0 <= i < |cells| :: lib.toNumeric(cells[i]).Some? ==>
          Integral(lib.toNumeric(cells[i]).value) && data.values[i] == Int(lib.toNumeric(cells[i]).value.Floor)) &&
      (data.dtype == Float64 ==>
        forall i | 0 <= i < |cells| :: lib.toNumeric(cells[i]).Some? ==>
          data.values[i] == Real(lib.toNumeric(cells[i]).value))
  {
    if |cells| > 0 {
      RatioGates(Count(cells, c => lib.toNumeric(c).None?), |cells|, th.error);
    }
    NumericValues(cells, th, lib);
  }

  lemma NumericValues(cells: seq<string>, th: Thresholds, lib: Library)
    ensures NumericStep(cells, th, lib).Accepted? ==>
      var data := NumericStep(cells, th, lib).data;
      (forall i | 0 <= i < |cells| :: lib.toNumeric(cells[i]).None? ==> data.values[i] == Missing) &&
      (data.dtype == Int64 ==>
        forall i | 0 <= i < |cells| :: lib.toNumeric(cells[i]).Some? ==>
          Integral(lib.toNumeric(cells[i]).value) && data.values[i] == Int(lib.toNumeric(cells[i]).value.Floor)) &&
      (data.dtype == Float64 ==>
        forall i | 0 <= i < |cells| :: lib.toNumeric(cells[i]).Some? ==>
          data.values[i] == Real(lib.toNumeric(cells[i]).value))
  {
  }

  /** Under the default error threshold of 0.3, one unparsed cell in three (a third) is
      too many for the numeric step, while three in ten is just within it. */
  lemma DefaultErrorBoundary(cells: seq<string>, lib: Library)
    ensures |cells| == 3 && Count(cells, c => lib.toNumeric(c).None?) == 1 ==>
      NumericStep(cells, Defaults, lib).Declined?
    ensures |cells| == 10 && Count(cells, c => lib.toNumeric(c).None?) == 3 ==>
      NumericStep(cells, Defaults, lib).Accepted?
  {
  }

  /** An empty column is a boolean column: the numeric gate's 0/0 fails and the empty
      set of values is a subset of the literals. */
  lemma EmptyColumnIsBool(th: Thresholds, lib: Library)
    ensures InferColumn([], th, lib) == Accepted(Typed(Bool, []))
  {
    assert NumericStep([], th, lib).Declined?;
    assert Distinct([]) == {};
    FirstDecisiveWins(Chain, 1, [], th, lib);
  }

  /** A column of only "0" and "1" becomes Int64, never boolean: the numeric step
      accepts it before the boolean step is tried. */
  lemma ZeroOneIsInt64(cells: seq<string>, th: Thresholds, lib: Library)
    requires |cells| > 0 && forall i | 0 <= i < |cells| :: cells[i] == "0" || cells[i] == "1"
    requires lib.toNumeric("0") == Some(0.0) && lib.toNumeric("1") == Some(1.0)
    ensures InferColumn(cells, th, lib) ==
      Accepted(Typed(Int64, MapCells(cells, c => Int(if c == "1" then 1 else 0))))
  {
    var misses := Count(cells, c => lib.toNumeric(c).None?);
    assert misses == 0;
    var v := NumericStep(cells, th, lib);
    assert v == Accepted(Typed(Int64, MapCells(cells, c => NumericCell(lib.toNumeric(c), true))));
    assert MapCells(cells, c => NumericCell(lib.toNumeric(c), true)) == MapCells(cells, c => Int(if c == "1" then 1 else 0));
    FirstDecisiveWins(Chain, 0, cells, th, lib);
  }

  /** A column the numeric step passes on becomes boolean exactly when its distinct
      values are among "0", "1", "True", "False"; "1" and "True" map to true, "0" and
      "False" to false. */
  lemma BooleanOutcome(cells: seq<string>, th: Thresholds, lib: Library)
    requires NumericStep(cells, th, lib).Declined?
    ensures var r := InferColumn(cells, th, lib);
      (r.Accepted? && r.data.Typed? && r.data.dtype == Bool) <==> Distinct(cells) <= BoolLiterals
    ensures Distinct(cells) <= BoolLiterals ==>
      InferColumn(cells, th, lib) == Accepted(Typed(Bool, MapCells(cells, c => Flag(c == "1" || c == "True")))) &&
      forall i | 0 <= i < |cells| :: (cells[i] == "1" || cells[i] == "True") || (cells[i] == "0" || cells[i] == "False")
  {
    if Distinct(cells) <= BoolLiterals {
      BooleanAccepts(cells, th, lib);
    } else {
      BooleanDeclines(cells, th, lib);
    }
  }

  lemma BooleanAccepts(cells: seq<string>, th: Thresholds, lib: Library)
    requires NumericStep(cells, th, lib).Declined? && Distinct(cells) <= BoolLiterals
    ensures InferColumn(cells, th, lib) == Accepted(Typed(Bool, MapCells(cells, c => Flag(c == "1" || c == "True"))))
    ensures forall i | 0 <= i < |cells| :: (cells[i] == "1" || cells[i] == "True") || (cells[i] == "0" || cells[i] == "False")
  {
    FirstDecisiveWins(Chain, 1, cells, th, lib);
    forall i | 0 <= i < |cells|
      ensures (cells[i] == "1" || cells[i] == "True") || (cells[i] == "0" || cells[i] == "False")
    {
      assert cells[i] in Distinct(cells);
    }
  }

  lemma BooleanDeclines(cells: seq<string>, th: Thresholds, lib: Library)
    requires NumericStep(cells, th, lib).Declined? && !(Distinct(cells) <= BoolLiterals)
    ensures var r := InferColumn(cells, th, lib); r.Accepted? ==> !(r.data.Typed? && r.data.dtype == Bool)
  {
    assert Try(Chain[1], cells, th, lib).Declined?;
    DeclinedPrefix(Chain, 2, cells, th, lib);
    NoLaterBool(Chain[2..], cells, th, lib);
  }

  /** Only the boolean classifier produces a boolean column. */
  lemma {:induction false} NoLaterBool(steps: seq<Classifier>, cells: seq<string>, th: Thresholds, lib: Library)
    requires Boolean !in steps
    ensures var r := RunChain(steps, cells, th, lib); r.Accepted? ==> !(r.data.Typed? && r.data.dtype == Bool)
  {
    if steps != [] {
      assert steps[0] in steps;
      assert forall c | c in steps[1..] :: c in steps;
      NoLaterBool(steps[1..], cells, th, lib);
    }
  }

  /** The complex gate is `matches / n > 1 - error_threshold`, strict. A cell counts
      when a complex literal occurs anywhere in it; a cell that does not count becomes
      missing, and one that counts but that complex() rejects raises. */
  lemma ComplexOutcome(cells: seq<string>, th: Thresholds, lib: Library)
    requires ValidThresholds(th) && |cells| > 0
    ensures var hits := Count(cells, c => IsComplex(c));
      !ComplexStep(cells, th, lib).Declined? <==> (hits as real) / (|cells| as real) > 1.0 - AsReal(th.error)
    ensures ComplexStep(cells, th, lib).Raised? <==>
      !ComplexStep(cells, th, lib).Declined? &&
      exists i | 0 <= i < |cells| :: IsComplex(cells[i]) && lib.toComplex(cells[i]).None?
    ensures ComplexStep(cells, th, lib).Accepted? ==>
      forall i | 0 <= i < |cells| :: ComplexStep(cells, th, lib).data.values[i] ==
        if IsComplex(cells[i]) then Cplx(lib.toComplex(cells[i]).value) else Missing
  {
    RatioGates(Count(cells, c => IsComplex(c)), |cells|, th.error);
  }

  /** The date step is attempted only when some cell has one of the six shapes, and it
      keeps the conversion when at most error_threshold of the cells fail to parse.
      Otherwise the column reaches the duration checks unchanged. */
  lemma DateOutcome(cells: seq<string>, th: Thresholds, lib: Library)
    requires ValidThresholds(th)
    ensures var misses := Count(cells, c => lib.toDatetime(c).None?);
      DateStep(cells, th, lib).Accepted? <==>
        SomeDateShaped(cells) &&
        (misses as real) / (|cells| as real) <= AsReal(th.error)
    ensures !DateStep(cells, th, lib).Raised?
    ensures DateStep(cells, th, lib).Accepted? ==>
      var col := DateStep(cells, th, lib).data;
      col.dtype == DateTime64 && |col.values| == |cells| &&
      forall j | 0 <= j < |cells| ::
        (col.values[j] == Missing <==> lib.toDatetime(cells[j]).None?) &&
        (lib.toDatetime(cells[j]).Some? ==> col.values[j] == Time(lib.toDatetime(cells[j]).value))
  {
    if SomeDateShaped(cells) {
      RatioGates(Count(cells, c => lib.toDatetime(c).None?), |cells|, th.error);
    }
  }

  /** When the first four classifiers pass a column on, the duration checks see the
      original cells. */
  lemma DateFallsThrough(cells: seq<string>, th: Thresholds, lib: Library)
    requires forall j | 0 <= j < 4 :: Try(Chain[j], cells, th, lib).Declined?
    ensures InferColumn(cells, th, lib) == RunChain([VerboseDurations, IsoYearDurations, Categorical], cells, th, lib)
  {
    DeclinedPrefix(Chain, 4, cells, th, lib);
  }

  /** One cell that begins with digits, optional spaces and a unit makes the whole
      column a duration column, with no ratio gate; every cell the parser rejects is
      missing. */
  lemma VerboseDurationOutcome(cells: seq<string>, i: nat, d: string, w: string, u: string, rest: string, lib: Library)
    requires i < |cells| && cells[i] == d + w + u + rest
    requires Numeral(d) && (forall j | 0 <= j < |w| :: IsSpace(w[j])) && u in DurationUnits
    ensures VerboseDurationStep(cells, lib).Accepted?
    ensures VerboseDurationStep(cells, lib).data.dtype == TimeDelta64
    ensures var vs := VerboseDurationStep(cells, lib).data.values;
      |vs| == |cells| &&
      forall j | 0 <= j < |cells| ::
        (vs[j] == Missing <==> lib.toTimedelta(cells[j]).None?) &&
        (lib.toTimedelta(cells[j]).Some? ==> vs[j] == Span(lib.toTimedelta(cells[j]).value))
  {
    DurationPrefix(d, w, u, rest);
  }

  /** The categorical gate is `distinct / n < category_threshold`, strict. */
  lemma CategoricalOutcome(cells: seq<string>, th: Thresholds)
    requires ValidThresholds(th) && |cells| > 0
    ensures CategoricalStep(cells, th).Accepted? <==>
      (|Distinct(cells)| as real) / (|cells| as real) < AsReal(th.category)
    ensures CategoricalStep(cells, th).Accepted? ==>
      CategoricalStep(cells, th).data == Typed(Category, MapCells(cells, c => Label(c)))
  {
    RatioGates(|Distinct(cells)|, |cells|, th.category);
  }

  // ---------------------------------------------------------------------------
  // The ISO-year rewrite
  // ---------------------------------------------------------------------------

  /** As written, "P<n>Y" is handed to to_timedelta as "<n> 365 days", not as 365 * n
      days. */
  lemma IsoYearRewriteAsWritten(d: string)
    requires Numeral(d)
    ensures IsoYearRewrite("P" + d + "Y") == d + " 365 days"
  {
    UnwrappedOf(d);
    ReplaceTail(d, "Y", " years");
    ReplaceTail(d, " years", " days");
    assert d + " days" == (d + " ") + "days";
    ReplaceTail(d + " ", "days", "365 days");
    assert (d + " ") + "365 days" == d + " 365 days";
  }

  lemma UnwrappedOf(d: string)
    requires Numeral(d)
    ensures Unwrapped("P" + d + "Y") == d + "Y"
  {
    var c := "P" + d + "Y";
    IsoYearOf(d);
    assert YearEnd(c) == |c|;
    assert c[1..|c| - 1] == d;
    assert c[|c|..] == [];
  }

  /** For "P2Y" that text is "2 365 days", not the 730 days of two years of 365 days. */
  lemma IsoYearTwoYears()
    ensures IsoYearRewrite("P2Y") == "2 365 days"
  {
    assert Numeral("2");
    assert "P2Y" == "P" + "2" + "Y";
    IsoYearRewriteAsWritten("2");
  }

  /** As corrected, "P<n>Y" is exactly 365 * n days, and any such cell turns the column
      into a duration column. */
  lemma IsoYearOutcome(cells: seq<string>, i: nat, d: string, lib: Library)
    requires i < |cells| && cells[i] == "P" + d + "Y" && Numeral(d)
    ensures IsoYearStep(cells, lib).Accepted?
    ensures IsoYearStep(cells, lib).data.dtype == TimeDelta64
    ensures IsoYearStep(cells, lib).data.values[i] == Span(Duration(365 * NumeralValue(d) * NanosPerDay))
  {
    IsoYearOf(d);
  }

  // ---------------------------------------------------------------------------
  // The loop over the columns
  // ---------------------------------------------------------------------------

  /** The position of the first column whose inference raises, or the number of
      columns when none does. */
  function FirstRaised(cols: seq<Column>, th: Thresholds, lib: Library): (k: nat)
    requires AllText(cols)
    ensures k <= |cols|
    ensures forall j | 0 <= j < k :: !InferColumn(cols[j].data.cells, th, lib).Raised?
    ensures k < |cols| ==> InferColumn(cols[k].data.cells, th, lib).Raised?
  {
    if cols == [] then 0
    else if InferColumn(cols[0].data.cells, th, lib).Raised? then 0
    else
      assert AllText(cols[1..]);
      1 + FirstRaised(cols[1..], th, lib)
  }

  /** A column after its classifier has been applied. */
  function Converted(col: Column, th: Thresholds, lib: Library): Column
    requires col.data.Text? && !InferColumn(col.data.cells, th, lib).Raised?
  {
    Column(col.name, InferColumn(col.data.cells, th, lib).data)
  }

  /** The table once the loop ends, and whether it ran to the end: columns before the
      first one that raises are converted, the rest are left as they were. Only the
      current column is ever reassigned, so names, order and length stay. */
  function InferColumns(cols: seq<Column>, th: Thresholds, lib: Library): (r: (seq<Column>, bool))
    requires AllText(cols)
    ensures |r.0| == |cols|
    ensures forall j | 0 <= j < |cols| :: r.0[j].name == cols[j].name && Length(r.0[j].data) == Length(cols[j].data)
    ensures r.1 <==> forall j | 0 <= j < |cols| :: !InferColumn(cols[j].data.cells, th, lib).Raised?
    ensures r.1 ==> forall j | 0 <= j < |cols| :: r.0[j].data == InferColumn(cols[j].data.cells, th, lib).data
  {
    var stop := FirstRaised(cols, th, lib);
    (seq(|cols|, j requires 0 <= j < |cols| => if j < stop then Converted(cols[j], th, lib) else cols[j]),
     stop == |cols|)
  }

  /** infer_and_convert_data_types: converts the columns of df in place, in order; false
      when a column's conversion raised, which leaves the later columns untouched. */
  method InferAndConvert(df: Frame, th: Thresholds, lib: Library) returns (ok: bool)
    requires df.Valid() && AllText(df.columns)
    modifies df
    ensures df.Valid()
    ensures (df.columns, ok) == InferColumns(old(df.columns), th, lib)
  {
    ghost var original := df.columns;
    ghost var stop := FirstRaised(original, th, lib);
    for i := 0 to |df.columns|
      invariant |df.columns| == |original| && i <= stop
      invariant forall j | 0 <= j < |original| ::
        df.columns[j] == if j < i then Converted(original[j], th, lib) else original[j]
      invariant df.Valid()
    {
      var col := df.columns[i];
      var verdict := InferColumn(col.data.cells, th, lib);
      if verdict.Raised? {
        assert stop == i;
        assert df.columns == InferColumns(original, th, lib).0;
        return false;
      }
      df.columns := df.columns[i := Column(col.name, verdict.data)];
    }
    assert df.columns == InferColumns(original, th, lib).0;
    return true;
  }
}
