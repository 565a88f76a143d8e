/** The per-column conversion loop of convert_file (backend/api/views.py): every entry of
    the requested mapping names a column and a type; the column is converted to that
    type, and a conversion that raises records the column in an error map instead of
    stopping the loop. The reply is a success exactly when that map is empty. */
module Coercion {
  import opened Frames
  import opened Patterns
  import opened IsoDuration
  import opened Inference

  /** The types the loop knows how to produce. */
  datatype Target = ToBool | ToDateTime | ToInt64 | ToFloat64 | ToComplex | ToText | ToCategory | ToTimeDelta

  function TargetName(t: Target): string
  {
    match t
    case ToBool => "bool"
    case ToDateTime => "datetime64[ns]"
    case ToInt64 => "Int64"
    case ToFloat64 => "float64"
    case ToComplex => "complex128"
    case ToText => "object"
    case ToCategory => "category"
    case ToTimeDelta => "timedelta64[ns]"
  }

  /** The branch of the if-chain a type name selects; None for a name no branch tests. */
  function ParseTarget(name: string): (t: Option<Target>)
    ensures t.Some? ==> TargetName(t.value) == name
    ensures t.None? ==> forall u: Target :: TargetName(u) != name
  {
    if name == "bool" then Some(ToBool)
    else if name == "datetime64[ns]" then Some(ToDateTime)
    else if name == "Int64" then Some(ToInt64)
    else if name == "float64" then Some(ToFloat64)
    else if name == "complex128" then Some(ToComplex)
    else if name == "object" then Some(ToText)
    else if name == "category" then Some(ToCategory)
    else if name == "timedelta64[ns]" then Some(ToTimeDelta)
    else None
  }

  /** Each type name selects its own branch. */
  lemma TargetNamesRoundTrip(t: Target)
    ensures ParseTarget(TargetName(t)) == Some(t)
  {
  }

  /** The fallback formats of the date branch, in the order they are tried. */
  const DateFormats: seq<string> := ["%d/%m/%Y", "%Y-%m-%d", "%m-%d-%Y", "%Y.%m.%d"]

  /** The missing-value limit of the numeric branches: 0.3. */
  const MissingLimit := Ratio(3, 10)

  /** What converting one column did: the data written back to df[column], if any,
      and whether the branch raised. */
  datatype Attempt = Attempt(write: Option<ColumnData>, failed: bool)

  predicate ParsesAll<T>(cells: seq<string>, parse: string -> Option<T>)
  {
    forall i | 0 <= i < |cells| :: parse(cells[i]).Some?
  }

  /** The fallback format that parses every cell, at the given position in the list. */
  function WithFormat(fmt: string, lib: Library): string -> Option<Timestamp>
  {
    c => lib.toDatetimeWithFormat(c, fmt)
  }

  /** The position of the first of formats that parses the whole column. */
  function FirstFormat(cells: seq<string>, formats: seq<string>, lib: Library): (r: Option<nat>)
    ensures r.Some? ==> r.value < |formats| && ParsesAll(cells, WithFormat(formats[r.value], lib))
    ensures r.Some? ==> forall j | 0 <= j < r.value :: !ParsesAll(cells, WithFormat(formats[j], lib))
    ensures r.None? <==> forall j | 0 <= j < |formats| :: !ParsesAll(cells, WithFormat(formats[j], lib))
  {
    if formats == [] then None
    else if ParsesAll(cells, WithFormat(formats[0], lib)) then Some(0)
    else match FirstFormat(cells, formats[1..], lib)
      case None => None
      case Some(k) => Some(k + 1)
  }

  /** The bool branch (views.py, lines 97-98): the mapping leaves every cell other than
      'True' and 'False' NaN, and the cast to bool makes NaN true. */
  function BoolAttempt(cells: seq<string>): (a: Attempt)
    ensures a.write.Some? && Length(a.write.value) == |cells| && TypeName(a.write.value) == "bool"
  {
    Attempt(Some(Typed(Bool, MapCells(cells, c => Flag(c != "False")))), false)
  }

  /** The datetime branch (views.py, lines 99-111): the day-first parse of every cell,
      else the first fallback format that parses every cell, else a failure. */
  function DateAttempt(cells: seq<string>, lib: Library): (a: Attempt)
    ensures a.write.Some? ==> Length(a.write.value) == |cells| && TypeName(a.write.value) == "datetime64[ns]"
  {
    if ParsesAll(cells, lib.toDatetimeDayFirst) then
      Attempt(Some(Typed(DateTime64, MapCells(cells, c => TimeCell(lib.toDatetimeDayFirst(c))))), false)
    else
      match FirstFormat(cells, DateFormats, lib)
      case Some(k) =>
        Attempt(Some(Typed(DateTime64, MapCells(cells, c => TimeCell(WithFormat(DateFormats[k], lib)(c))))), false)
      case None => Attempt(None, true)
  }

  /** The Int64 and float64 branches (views.py, lines 112-119): pd.to_numeric(downcast='integer') gives an integer column only
      when every cell parses to an integral value. */
  function NumericAttempt(cells: seq<string>, downcastAllowed: bool, lib: Library): (a: Attempt)
    ensures a.write.Some? && a.write.value.Typed? && Length(a.write.value) == |cells|
    ensures a.write.value.dtype == Int64 || a.write.value.dtype == Float64
    ensures a.write.value.dtype == Int64 ==> downcastAllowed
  {
    var misses := Count(cells, c => lib.toNumeric(c).None?);
    var downcast := downcastAllowed && misses == 0 &&
      forall i | 0 <= i < |cells| :: lib.toNumeric(cells[i]).Some? ==> Integral(lib.toNumeric(cells[i]).value);
    Attempt(Some(Typed(if downcast then Int64 else Float64, MapCells(cells, c => NumericCell(lib.toNumeric(c), downcast)))),
            !AtMost(misses, |cells|, MissingLimit))
  }

  /** The complex128 branch (views.py, lines 120-121): complex() raises on the first cell it rejects. */
  function ComplexAttempt(cells: seq<string>, lib: Library): (a: Attempt)
    ensures a.write.Some? ==> Length(a.write.value) == |cells| && TypeName(a.write.value) == "complex128"
  {
    if ParsesAll(cells, lib.toComplex)
    then Attempt(Some(Typed(Complex128, MapCells(cells, c => ComplexOf(lib.toComplex(c))))), false)
    else Attempt(None, true)
  }

  /** The timedelta branch (views.py, lines 126-131): the ISO parser when some cell starts
      with 'P', else the generic parser, which must accept every cell. */
  function TimeDeltaAttempt(cells: seq<string>, lib: Library): (a: Attempt)
    ensures a.write.Some? ==> Length(a.write.value) == |cells| && TypeName(a.write.value) == "timedelta64[ns]"
  {
    if SomeStartsWithP(cells) then
      Attempt(Some(Typed(TimeDelta64, IsoCells(cells))), false)
    else if ParsesAll(cells, lib.toTimedelta) then
      Attempt(Some(Typed(TimeDelta64, MapCells(cells, c => SpanCell(lib.toTimedelta(c))))), false)
    else Attempt(None, true)
  }

  /** The branches of views.py, lines 97-131, for a column that exists: the converted column keeps its length and
      has the requested type (Int64 may come back as float64). */
  function Coerce(cells: seq<string>, t: Target, lib: Library): (a: Attempt)
    ensures a.write.Some? ==> Length(a.write.value) == |cells|
    ensures a.write.Some? && t != ToInt64 ==> TypeName(a.write.value) == TargetName(t)
    ensures a.write.Some? && t == ToInt64 ==> TypeName(a.write.value) in {"Int64", "float64"}
  {
    match t
    case ToBool => BoolAttempt(cells)
    case ToDateTime => DateAttempt(cells, lib)
    case ToInt64 => NumericAttempt(cells, true, lib)
    case ToFloat64 => NumericAttempt(cells, false, lib)
    case ToComplex => ComplexAttempt(cells, lib)
    case ToText => Attempt(Some(Text(cells)), false)
    case ToCategory => Attempt(Some(Typed(Category, MapCells(cells, c => Label(c)))), false)
    case ToTimeDelta => TimeDeltaAttempt(cells, lib)
  }

  function ComplexOf(x: Option<Complex>): Value
  {
    match x
    case None => Missing
    case Some(z) => Cplx(z)
  }

  predicate StartsWithP(c: string)
  {
    c != [] && c[0] == 'P'
  }

  /** Some cell starts with the letter P. */
  predicate SomeStartsWithP(cells: seq<string>)
  {
    exists i | 0 <= i < |cells| :: StartsWithP(cells[i])
  }

  /** One branch of the loop body, as the code runs it: the date branch tries the
      day-first parse and then the fallback formats in order, stopping at the first
      that parses the whole column. */
  method CoerceColumn(cells: seq<string>, t: Target, lib: Library) returns (write: Option<ColumnData>, failed: bool)
    ensures Attempt(write, failed) == Coerce(cells, t, lib)
  {
    if t != ToDateTime {
      var a := Coerce(cells, t, lib);
      return a.write, a.failed;
    }
    if ParsesAll(cells, lib.toDatetimeDayFirst) {
      return Some(Typed(DateTime64, MapCells(cells, c => TimeCell(lib.toDatetimeDayFirst(c))))), false;
    }
    for k := 0 to |DateFormats|
      invariant forall j | 0 <= j < k :: !ParsesAll(cells, WithFormat(DateFormats[j], lib))
    {
      var parse := WithFormat(DateFormats[k], lib);
      if ParsesAll(cells, parse) {
        assert FirstFormat(cells, DateFormats, lib) == Some(k);
        return Some(Typed(DateTime64, MapCells(cells, c => TimeCell(parse(c))))), false;
      }
    }
    return None, true;
  }

  // ---------------------------------------------------------------------------
  // The branches' promises
  // ---------------------------------------------------------------------------

  /** Int64 and float64 always write the converted column, with a missing value for
      every cell that does not parse, and fail exactly when more than 30% are missing. */
  lemma NumericTargets(cells: seq<string>, downcastAllowed: bool, lib: Library)
    ensures var a := NumericAttempt(cells, downcastAllowed, lib);
      var misses := Count(cells, c => lib.toNumeric(c).None?);
      a.failed <==> |cells| > 0 && (misses as real) / (|cells| as real) > 0.3
    ensures var vs := NumericAttempt(cells, downcastAllowed, lib).write.value.values;
      forall i | 0 <= i < |cells| :: vs[i] == Missing <==> lib.toNumeric(cells[i]).None?
  {
    NumericGate(cells, downcastAllowed, lib);
    NumericMissing(cells, downcastAllowed, lib);
  }

  lemma NumericGate(cells: seq<string>, downcastAllowed: bool, lib: Library)
    ensures var misses := Count(cells, c => lib.toNumeric(c).None?);
      NumericAttempt(cells, downcastAllowed, lib).failed <==>
        |cells| > 0 && (misses as real) / (|cells| as real) > 0.3
  {
    var misses := Count(cells, c => lib.toNumeric(c).None?);
    if |cells| > 0 {
      RatioGates(misses, |cells|, MissingLimit);
      assert AsReal(MissingLimit) == 0.3;
    }
  }

  lemma NumericMissing(cells: seq<string>, downcastAllowed: bool, lib: Library)
    ensures var vs := NumericAttempt(cells, downcastAllowed, lib).write.value.values;
      forall i | 0 <= i < |cells| :: vs[i] == Missing <==> lib.toNumeric(cells[i]).None?
  {
  }

  /** Exactly 30% missing is accepted. */
  lemma ThirtyPercentPasses(cells: seq<string>, downcastAllowed: bool, lib: Library)
    requires Count(cells, c => lib.toNumeric(c).None?) * 10 == 3 * |cells|
    ensures !NumericAttempt(cells, downcastAllowed, lib).failed
  {
  }

  /** The day-first parse wins when it parses every cell; otherwise the first fallback
      format that parses every cell; when none does the column fails and is left as
      it was. */
  lemma DateTarget(cells: seq<string>, lib: Library)
    ensures var a := Coerce(cells, ToDateTime, lib);
      (a.failed <==> a.write.None?) &&
      (a.failed <==> !ParsesAll(cells, lib.toDatetimeDayFirst) &&
                     forall j | 0 <= j < |DateFormats| :: !ParsesAll(cells, WithFormat(DateFormats[j], lib)))
    ensures !ParsesAll(cells, lib.toDatetimeDayFirst) ==>
      forall k | 0 <= k < |DateFormats| ::
        ParsesAll(cells, WithFormat(DateFormats[k], lib)) &&
        (forall j | 0 <= j < k :: !ParsesAll(cells, WithFormat(DateFormats[j], lib))) ==>
          Coerce(cells, ToDateTime, lib).write ==
            Some(Typed(DateTime64, MapCells(cells, c => TimeCell(lib.toDatetimeWithFormat(c, DateFormats[k])))))
  {
    if !ParsesAll(cells, lib.toDatetimeDayFirst) {
      forall k | 0 <= k < |DateFormats| &&
        ParsesAll(cells, WithFormat(DateFormats[k], lib)) &&
        (forall j | 0 <= j < k :: !ParsesAll(cells, WithFormat(DateFormats[j], lib)))
        ensures Coerce(cells, ToDateTime, lib).write ==
            Some(Typed(DateTime64, MapCells(cells, c => TimeCell(lib.toDatetimeWithFormat(c, DateFormats[k])))))
      {
        var r := FirstFormat(cells, DateFormats, lib);
        assert r == Some(k) by {
          if r.None? {
          } else if r.value < k {
          } else if r.value > k {
          }
        }
        assert MapCells(cells, c => TimeCell(WithFormat(DateFormats[k], lib)(c)))
            == MapCells(cells, c => TimeCell(lib.toDatetimeWithFormat(c, DateFormats[k])));
      }
    }
  }

  /** With a cell starting with 'P' every cell goes through the ISO 8601 parser and the
      column never fails: a cell the parser does not match becomes missing, any other
      cell a non-negative duration. */
  lemma IsoTimeDeltas(cells: seq<string>, lib: Library)
    requires SomeStartsWithP(cells)
    ensures var a := TimeDeltaAttempt(cells, lib);
      !a.failed && a.write == Some(Typed(TimeDelta64, IsoCells(cells)))
    ensures forall i | 0 <= i < |cells| ::
      (IsoCells(cells)[i] == Missing <==> forall f :: WellFormed(f) ==> Render(f) != cells[i])
  {
    forall i | 0 <= i < |cells|
      ensures IsoCells(cells)[i] == Missing <==> forall f :: WellFormed(f) ==> Render(f) != cells[i]
    {
      IsoCellsAt(cells, i);
      IsoCellOutcome(cells[i]);
    }
  }

  /** Without one, any cell the generic parser rejects fails the column, which is then
      left as it was. */
  lemma GenericTimeDeltas(cells: seq<string>, lib: Library)
    requires !SomeStartsWithP(cells)
    ensures var a := TimeDeltaAttempt(cells, lib);
      (a.failed <==> exists i | 0 <= i < |cells| :: lib.toTimedelta(cells[i]).None?) &&
      (a.failed <==> a.write.None?) &&
      (!a.failed ==>
        (a.write.value.Typed? && a.write.value.dtype == TimeDelta64 &&
         forall i | 0 <= i < |cells| :: a.write.value.values[i] == Span(lib.toTimedelta(cells[i]).value)))
  {
    var a := TimeDeltaAttempt(cells, lib);
    if !a.failed {
      var spans := MapCells(cells, c => SpanCell(lib.toTimedelta(c)));
      assert a.write == Some(Typed(TimeDelta64, spans));
      forall i | 0 <= i < |cells|
        ensures spans[i] == Span(lib.toTimedelta(cells[i]).value)
      {
        assert lib.toTimedelta(cells[i]).Some?;
      }
    }
  }

  /** Only the literal "False" becomes false; every other cell becomes true. */
  lemma BoolTarget(cells: seq<string>, lib: Library)
    ensures var a := Coerce(cells, ToBool, lib);
      !a.failed && a.write.Some? &&
      forall i | 0 <= i < |cells| :: a.write.value.values[i] == Flag(cells[i] != "False")
  {
  }

  // ---------------------------------------------------------------------------
  // The loop over the requested mapping
  // ---------------------------------------------------------------------------

  /** The requested mapping, column name to type name, in its order; as a JSON object
      read into a dict it names each column once. */
  predicate DistinctKeys(entries: seq<(string, string)>)
  {
    forall i, j | 0 <= i < j < |entries| :: entries[i].0 != entries[j].0
  }

  /** One pass of the loop body (views.py, lines 95-134) on the table and the error map: an
      unknown type name matches no branch; df[column] on a missing column raises; a
      branch may write the column, raise, or (Int64, float64) both. */
  function ApplyEntry(cols: seq<Column>, errors: map<string, string>, column: string, expected: string, lib: Library)
    : (r: (seq<Column>, map<string, string>))
    requires forall j | 0 <= j < |cols| :: cols[j].name == column ==> cols[j].data.Text?
    ensures |r.0| == |cols|
    ensures forall j | 0 <= j < |cols| :: r.0[j].name == cols[j].name && Length(r.0[j].data) == Length(cols[j].data)
    ensures forall j | 0 <= j < |cols| :: cols[j].name != column ==> r.0[j] == cols[j]
    ensures r.1 == errors || r.1 == errors[column := expected]
  {
    match ParseTarget(expected)
    case None => (cols, errors)
    case Some(t) =>
      match IndexOf(cols, column)
      case None => (cols, errors[column := expected])
      case Some(k) =>
        var a := Coerce(cols[k].data.cells, t, lib);
        (if a.write.Some? then cols[k := Column(column, a.write.value)] else cols,
         if a.failed then errors[column := expected] else errors)
  }

  /** The table and the error map after the loop has handled the entries in order. A
      column no entry names is left as it was, and only named columns are reported. */
  function ConvertAll(cols: seq<Column>, entries: seq<(string, string)>, lib: Library)
    : (r: (seq<Column>, map<string, string>))
    requires AllText(cols) && DistinctKeys(entries)
    ensures |r.0| == |cols|
    ensures forall j | 0 <= j < |cols| :: r.0[j].name == cols[j].name && Length(r.0[j].data) == Length(cols[j].data)
    ensures forall j | 0 <= j < |cols| ::
      (forall i | 0 <= i < |entries| :: entries[i].0 != cols[j].name) ==> r.0[j] == cols[j]
    ensures forall name | name in r.1 :: exists i | 0 <= i < |entries| :: entries[i] == (name, r.1[name])
    decreases |entries|
  {
    if entries == [] then (cols, map[])
    else
      var n := |entries| - 1;
      var prev := ConvertAll(cols, entries[..n], lib);
      ApplyEntry(prev.0, prev.1, entries[n].0, entries[n].1, lib)
  }

  /** What the loop leaves for one entry: an unknown type changes nothing and reports
      nothing; a known type on a missing column is reported; otherwise the column holds
      what its branch wrote, and it is reported exactly when the branch raised. */
  predicate EntryOutcome(cols: seq<Column>, column: string, expected: string, lib: Library,
                         r: (seq<Column>, map<string, string>))
    requires AllText(cols) && |r.0| == |cols|
  {
    match ParseTarget(expected)
    case None =>
      column !in r.1 && forall j | 0 <= j < |cols| :: cols[j].name == column ==> r.0[j] == cols[j]
    case Some(t) =>
      match IndexOf(cols, column)
      case None => column in r.1 && r.1[column] == expected
      case Some(k) =>
        var a := Coerce(cols[k].data.cells, t, lib);
        (column in r.1 <==> a.failed) && (a.failed ==> r.1[column] == expected) &&
        r.0[k].data == (if a.write.Some? then a.write.value else cols[k].data)
  }

  lemma IndexOfSameNames(a: seq<Column>, b: seq<Column>, name: string)
    requires |a| == |b| && forall j | 0 <= j < |a| :: a[j].name == b[j].name
    ensures IndexOf(a, name) == IndexOf(b, name)
  {
    var ia, ib := IndexOf(a, name), IndexOf(b, name);
    if ia.Some? && ib.Some? {
      assert !(ia.value < ib.value) && !(ib.value < ia.value);
    }
  }

  /** Each entry's outcome is decided by that entry alone: a failure is recorded for its
      own column, no other entry undoes or repeats a conversion, and the loop goes on. */
  lemma {:induction false} ConvertIsolated(cols: seq<Column>, entries: seq<(string, string)>, lib: Library, i: nat)
    requires AllText(cols) && DistinctKeys(entries) && i < |entries|
    ensures EntryOutcome(cols, entries[i].0, entries[i].1, lib, ConvertAll(cols, entries, lib))
    decreases |entries|
  {
    var n := |entries| - 1;
    var column, expected := entries[i].0, entries[i].1;
    var prev := ConvertAll(cols, entries[..n], lib);
    var r := ConvertAll(cols, entries, lib);
    assert r == ApplyEntry(prev.0, prev.1, entries[n].0, entries[n].1, lib);
    IndexOfSameNames(prev.0, cols, column);
    if i == n {
      assert forall j | 0 <= j < n :: entries[..n][j].0 != column;
      assert column !in prev.1;
    } else {
      ConvertIsolated(cols, entries[..n], lib, i);
      assert entries[..n][i] == entries[i];
      assert entries[n].0 != column;
    }
  }

  /** What convert_file answers. NoReply is the path where dataTypes is absent or
      empty: the view then returns nothing at all. */
  datatype Reply = Success | ConversionErrors(details: map<string, string>) | NoReply

  /** The reply of views.py, lines 139-145. */
  function ReplyFor(errors: map<string, string>): (r: Reply)
    ensures r.Success? <==> errors == map[]
    ensures r.ConversionErrors? ==> r.details == errors
  {
    if errors == map[] then Success else ConversionErrors(errors)
  }

  /** The entry converts without a recorded error. */
  predicate EntrySucceeds(cols: seq<Column>, column: string, expected: string, lib: Library)
    requires AllText(cols)
  {
    match ParseTarget(expected)
    case None => true
    case Some(t) => IndexOf(cols, column).Some? && !Coerce(cols[IndexOf(cols, column).value].data.cells, t, lib).failed
  }

  /** The reply is a success exactly when every entry converts without error. */
  lemma SuccessIff(cols: seq<Column>, entries: seq<(string, string)>, lib: Library)
    requires AllText(cols) && DistinctKeys(entries)
    ensures ReplyFor(ConvertAll(cols, entries, lib).1).Success? <==>
      forall i | 0 <= i < |entries| :: EntrySucceeds(cols, entries[i].0, entries[i].1, lib)
  {
    var r := ConvertAll(cols, entries, lib);
    forall i | 0 <= i < |entries|
      ensures EntrySucceeds(cols, entries[i].0, entries[i].1, lib) <==> entries[i].0 !in r.1
    {
      ConvertIsolated(cols, entries, lib, i);
    }
    if r.1 != map[] {
      var name :| name in r.1;
      var i :| 0 <= i < |entries| && entries[i] == (name, r.1[name]);
    }
  }

  // ---------------------------------------------------------------------------
  // What the loop leaves for each requested type, for a column that exists
  // ---------------------------------------------------------------------------

  /** The loop's outcome for an entry whose type selects a branch and whose column
      exists: what that branch wrote, reported exactly when the branch raised. */
  lemma EntryResult(cols: seq<Column>, entries: seq<(string, string)>, lib: Library, i: nat, k: nat, t: Target)
    requires AllText(cols) && DistinctKeys(entries) && i < |entries|
    requires ParseTarget(entries[i].1) == Some(t) && IndexOf(cols, entries[i].0) == Some(k)
    ensures var r := ConvertAll(cols, entries, lib);
      var a := Coerce(cols[k].data.cells, t, lib);
      k < |r.0| && (entries[i].0 in r.1 <==> a.failed) && r.0[k].name == cols[k].name &&
      r.0[k].data == (if a.write.Some? then a.write.value else cols[k].data)
  {
    ConvertIsolated(cols, entries, lib, i);
  }

  // The branch each target selects.

  lemma DispatchBool(cells: seq<string>, lib: Library)
    ensures Coerce(cells, ToBool, lib) == BoolAttempt(cells)
  {
  }

  lemma DispatchDateTime(cells: seq<string>, lib: Library)
    ensures Coerce(cells, ToDateTime, lib) == DateAttempt(cells, lib)
  {
  }

  lemma DispatchInt64(cells: seq<string>, lib: Library)
    ensures Coerce(cells, ToInt64, lib) == NumericAttempt(cells, true, lib)
  {
  }

  lemma DispatchFloat64(cells: seq<string>, lib: Library)
    ensures Coerce(cells, ToFloat64, lib) == NumericAttempt(cells, false, lib)
  {
  }

  lemma DispatchComplex(cells: seq<string>, lib: Library)
    ensures Coerce(cells, ToComplex, lib) == ComplexAttempt(cells, lib)
  {
  }

  lemma DispatchText(cells: seq<string>, lib: Library)
    ensures Coerce(cells, ToText, lib) == Attempt(Some(Text(cells)), false)
  {
  }

  lemma DispatchCategory(cells: seq<string>, lib: Library)
    ensures Coerce(cells, ToCategory, lib) == Attempt(Some(Typed(Category, MapCells(cells, c => Label(c)))), false)
  {
  }

  lemma DispatchTimeDelta(cells: seq<string>, lib: Library)
    ensures Coerce(cells, ToTimeDelta, lib) == TimeDeltaAttempt(cells, lib)
  {
  }

  /** "complex128": the column is reported exactly when complex() rejects one of its
      cells, and is then left as it was; otherwise every cell holds its complex value. */
  lemma ComplexEntry(cols: seq<Column>, entries: seq<(string, string)>, lib: Library, i: nat, k: nat)
    requires AllText(cols) && DistinctKeys(entries) && i < |entries|
    requires ParseTarget(entries[i].1) == Some(ToComplex) && IndexOf(cols, entries[i].0) == Some(k)
    ensures var r := ConvertAll(cols, entries, lib);
      var cells := cols[k].data.cells;
      (entries[i].0 in r.1 <==> exists j | 0 <= j < |cells| :: lib.toComplex(cells[j]).None?) &&
      (entries[i].0 in r.1 ==> r.0[k] == cols[k]) &&
      (entries[i].0 !in r.1 ==>
        (r.0[k].data.Typed? && r.0[k].data.dtype == Complex128 &&
         forall j | 0 <= j < |cells| :: r.0[k].data.values[j] == Cplx(lib.toComplex(cells[j]).value)))
  {
    EntryResult(cols, entries, lib, i, k, ToComplex);
    var cells := cols[k].data.cells;
    DispatchComplex(cells, lib);
  }

  /** "object" is never reported and leaves the text as it was. */
  lemma TextEntry(cols: seq<Column>, entries: seq<(string, string)>, lib: Library, i: nat, k: nat)
    requires AllText(cols) && DistinctKeys(entries) && i < |entries|
    requires ParseTarget(entries[i].1) == Some(ToText) && IndexOf(cols, entries[i].0) == Some(k)
    ensures var r := ConvertAll(cols, entries, lib);
      entries[i].0 !in r.1 && r.0[k] == cols[k]
  {
    EntryResult(cols, entries, lib, i, k, ToText);
    DispatchText(cols[k].data.cells, lib);
  }

  /** "category" is never reported, and the column holds every cell as its label. */
  lemma CategoryEntry(cols: seq<Column>, entries: seq<(string, string)>, lib: Library, i: nat, k: nat)
    requires AllText(cols) && DistinctKeys(entries) && i < |entries|
    requires ParseTarget(entries[i].1) == Some(ToCategory) && IndexOf(cols, entries[i].0) == Some(k)
    ensures var r := ConvertAll(cols, entries, lib);
      var cells := cols[k].data.cells;
      entries[i].0 !in r.1 && r.0[k].data.Typed? && r.0[k].data.dtype == Category &&
      |r.0[k].data.values| == |cells| && forall j | 0 <= j < |cells| :: r.0[k].data.values[j] == Label(cells[j])
  {
    EntryResult(cols, entries, lib, i, k, ToCategory);
    var cells := cols[k].data.cells;
    var labels := MapCells(cells, c => Label(c));
    DispatchCategory(cells, lib);
    assert forall j | 0 <= j < |cells| :: labels[j] == Label(cells[j]);
  }

  /** "bool" is never reported, and a cell ends up false exactly when it is "False". */
  lemma BoolEntry(cols: seq<Column>, entries: seq<(string, string)>, lib: Library, i: nat, k: nat)
    requires AllText(cols) && DistinctKeys(entries) && i < |entries|
    requires ParseTarget(entries[i].1) == Some(ToBool) && IndexOf(cols, entries[i].0) == Some(k)
    ensures var r := ConvertAll(cols, entries, lib);
      var cells := cols[k].data.cells;
      entries[i].0 !in r.1 && r.0[k].data.Typed? && r.0[k].data.dtype == Bool &&
      |r.0[k].data.values| == |cells| &&
      forall j | 0 <= j < |cells| :: r.0[k].data.values[j].Flag? &&
        (r.0[k].data.values[j] == Flag(false) <==> cells[j] == "False")
  {
    EntryResult(cols, entries, lib, i, k, ToBool);
    DispatchBool(cols[k].data.cells, lib);
  }

  /** "Int64" and "float64": the parsed column is always written, a cell is missing
      exactly when it does not parse, and the column is reported exactly when more than
      30% of its cells are missing. */
  lemma NumericEntry(cols: seq<Column>, entries: seq<(string, string)>, lib: Library, i: nat, k: nat)
    requires AllText(cols) && DistinctKeys(entries) && i < |entries|
    requires ParseTarget(entries[i].1) == Some(ToInt64) || ParseTarget(entries[i].1) == Some(ToFloat64)
    requires IndexOf(cols, entries[i].0) == Some(k)
    ensures var r := ConvertAll(cols, entries, lib);
      var cells := cols[k].data.cells;
      var misses := Count(cells, c => lib.toNumeric(c).None?);
      (entries[i].0 in r.1 <==> |cells| > 0 && (misses as real) / (|cells| as real) > 0.3) &&
      r.0[k].data.Typed? && |r.0[k].data.values| == |cells| &&
      forall j | 0 <= j < |cells| :: r.0[k].data.values[j] == Missing <==> lib.toNumeric(cells[j]).None?
  {
    var downcast := ParseTarget(entries[i].1) == Some(ToInt64);
    var t := if downcast then ToInt64 else ToFloat64;
    EntryResult(cols, entries, lib, i, k, t);
    var cells := cols[k].data.cells;
    DispatchInt64(cells, lib);
    DispatchFloat64(cells, lib);
    NumericTargets(cells, downcast, lib);
  }

  /** "datetime64[ns]": the column is reported exactly when neither the day-first parse
      nor any fallback format parses every cell, and is then left as it was. */
  lemma DateEntry(cols: seq<Column>, entries: seq<(string, string)>, lib: Library, i: nat, k: nat)
    requires AllText(cols) && DistinctKeys(entries) && i < |entries|
    requires ParseTarget(entries[i].1) == Some(ToDateTime) && IndexOf(cols, entries[i].0) == Some(k)
    ensures var r := ConvertAll(cols, entries, lib);
      var cells := cols[k].data.cells;
      (entries[i].0 in r.1 <==>
        (!ParsesAll(cells, lib.toDatetimeDayFirst) &&
         forall f | 0 <= f < |DateFormats| :: !ParsesAll(cells, WithFormat(DateFormats[f], lib)))) &&
      (entries[i].0 in r.1 ==> r.0[k] == cols[k]) &&
      (entries[i].0 !in r.1 ==> r.0[k].data.Typed? && r.0[k].data.dtype == DateTime64)
  {
    EntryResult(cols, entries, lib, i, k, ToDateTime);
    DispatchDateTime(cols[k].data.cells, lib);
    DateTarget(cols[k].data.cells, lib);
  }

  /** "timedelta64[ns]" with a cell starting with 'P': never reported, and the column
      holds the ISO parse of every cell. */
  lemma IsoTimeDeltaEntry(cols: seq<Column>, entries: seq<(string, string)>, lib: Library, i: nat, k: nat)
    requires AllText(cols) && DistinctKeys(entries) && i < |entries|
    requires ParseTarget(entries[i].1) == Some(ToTimeDelta) && IndexOf(cols, entries[i].0) == Some(k)
    requires SomeStartsWithP(cols[k].data.cells)
    ensures var r := ConvertAll(cols, entries, lib);
      entries[i].0 !in r.1 && r.0[k].data == Typed(TimeDelta64, IsoCells(cols[k].data.cells))
  {
    EntryResult(cols, entries, lib, i, k, ToTimeDelta);
    var cells := cols[k].data.cells;
    DispatchTimeDelta(cells, lib);
  }

  /** "timedelta64[ns]" with no cell starting with 'P': reported exactly when the generic
      parser rejects a cell, and then left as it was; otherwise each cell holds its
      parsed duration. */
  lemma GenericTimeDeltaEntry(cols: seq<Column>, entries: seq<(string, string)>, lib: Library, i: nat, k: nat)
    requires AllText(cols) && DistinctKeys(entries) && i < |entries|
    requires ParseTarget(entries[i].1) == Some(ToTimeDelta) && IndexOf(cols, entries[i].0) == Some(k)
    requires !SomeStartsWithP(cols[k].data.cells)
    ensures var r := ConvertAll(cols, entries, lib);
      var cells := cols[k].data.cells;
      (entries[i].0 in r.1 <==> exists j | 0 <= j < |cells| :: lib.toTimedelta(cells[j]).None?) &&
      (entries[i].0 in r.1 ==> r.0[k] == cols[k]) &&
      (entries[i].0 !in r.1 ==>
        (r.0[k].data.Typed? && r.0[k].data.dtype == TimeDelta64 &&
         forall j | 0 <= j < |cells| :: r.0[k].data.values[j] == Span(lib.toTimedelta(cells[j]).value)))
  {
    var r := ConvertAll(cols, entries, lib);
    var cells := cols[k].data.cells;
    var a := TimeDeltaAttempt(cells, lib);
    assert (entries[i].0 in r.1 <==> a.failed) && r.0[k].name == cols[k].name &&
           r.0[k].data == (if a.write.Some? then a.write.value else cols[k].data) by {
        EntryResult(cols, entries, lib, i, k, ToTimeDelta);
      DispatchTimeDelta(cells, lib);
    }
    assert entries[i].0 in r.1 <==> exists j | 0 <= j < |cells| :: lib.toTimedelta(cells[j]).None? by {
      GenericTimeDeltas(cells, lib);
    }
    assert entries[i].0 in r.1 ==> r.0[k] == cols[k] by {
      GenericTimeDeltas(cells, lib);
    }
    assert entries[i].0 !in r.1 ==>
        (r.0[k].data.Typed? && r.0[k].data.dtype == TimeDelta64 &&
         forall j | 0 <= j < |cells| :: r.0[k].data.values[j] == Span(lib.toTimedelta(cells[j]).value)) by {
      GenericTimeDeltas(cells, lib);
    }
  }

  /** convert_file's loop (views.py, lines 85-145): converts the requested columns of df in
      place, in the mapping's order, and answers with the errors it collected. */
  method ConvertColumns(df: Frame, dataTypes: Option<seq<(string, string)>>, lib: Library) returns (reply: Reply)
    requires df.Valid() && AllText(df.columns)
    requires dataTypes.Some? ==> DistinctKeys(dataTypes.value)
    modifies df
    ensures df.Valid()
    ensures dataTypes.None? ==> reply == NoReply && df.columns == old(df.columns)
    ensures dataTypes.Some? ==>
      var r := ConvertAll(old(df.columns), dataTypes.value, lib);
      df.columns == r.0 && reply == ReplyFor(r.1)
  {
    if dataTypes.None? {
      return NoReply;
    }
    var entries := dataTypes.value;
    ghost var original := df.columns;
    var errors: map<string, string> := map[];
    for i := 0 to |entries|
      invariant (df.columns, errors) == ConvertAll(original, entries[..i], lib)
      invariant df.Valid()
    {
      assert entries[..i + 1][..i] == entries[..i];
      var column, expected := entries[i].0, entries[i].1;
      assert forall j | 0 <= j < i :: entries[..i][j].0 != column;
      var target := ParseTarget(expected);
      if target.Some? {
        var k := IndexOf(df.columns, column);
        if k.None? {
          errors := errors[column := expected];
        } else {
          var write, failed := CoerceColumn(df.columns[k.value].data.cells, target.value, lib);
          if write.Some? {
            df.columns := df.columns[k.value := Column(column, write.value)];
          }
          if failed {
            errors := errors[column := expected];
          }
        }
      }
    }
    assert entries[..|entries|] == entries;
    reply := ReplyFor(errors);
  }
}
