/** Values, columns and the table shared by the inference and the coercion engines. */
module Frames {

  datatype Option<+T> = None | Some(value: T)

  /** A threshold num/den. A ratio k/n of cell counts is compared with it by
      cross-multiplication, so the comparison is exact (no floating point). */
  datatype Ratio = Ratio(num: nat, den: nat)

  /** The threshold as a number. */
  function AsReal(r: Ratio): real
    requires r.den > 0
  {
    (r.num as real) / (r.den as real)
  }

  /** k / n <= r */
  predicate AtMost(k: nat, n: nat, r: Ratio) { k * r.den <= r.num * n }

  /** k / n < r */
  predicate Below(k: nat, n: nat, r: Ratio) { k * r.den < r.num * n }

  /** k / n > 1 - r */
  predicate AboveComplement(k: nat, n: nat, r: Ratio) { k * r.den > (r.den - r.num) * n }

  /** The integer gates agree with the rational comparisons they stand for. */
  lemma RatioGates(k: nat, n: nat, r: Ratio)
    requires n > 0 && r.den > 0
    ensures AtMost(k, n, r) <==> (k as real) / (n as real) <= AsReal(r)
    ensures Below(k, n, r) <==> (k as real) / (n as real) < AsReal(r)
    ensures AboveComplement(k, n, r) <==> (k as real) / (n as real) > 1.0 - AsReal(r)
  {
    var kr, nr, pr, dr := k as real, n as real, r.num as real, r.den as real;
    CrossMultiply(kr, nr, pr, dr);
    assert (k * r.den) as real == kr * dr && (r.num * n) as real == pr * nr;
    var qr := (r.den - r.num) as real;
    CrossMultiply(qr, dr, kr, nr);
    assert 1.0 - pr / dr == qr / dr by {
      assert pr + qr == dr;
      assert (pr / dr) * dr == pr && (qr / dr) * dr == qr;
      assert (pr / dr + qr / dr) * dr == (pr / dr) * dr + (qr / dr) * dr;
      MulMonotone(pr / dr + qr / dr, 1.0, dr);
    }
    assert ((r.den - r.num) * n) as real == qr * nr;
  }

  /** p/q compared with x/y, for positive denominators, by cross-multiplication. */
  lemma CrossMultiply(p: real, q: real, x: real, y: real)
    requires q > 0.0 && y > 0.0
    ensures p / q <= x / y <==> p * y <= x * q
    ensures p / q < x / y <==> p * y < x * q
  {
    var c := q * y;
    assert c > 0.0;
    assert (p / q) * c == p * y;
    assert (x / y) * c == x * q;
    MulMonotone(p / q, x / y, c);
  }

  lemma MulMonotone(x: real, y: real, c: real)
    requires c > 0.0
    ensures x <= y <==> x * c <= y * c
    ensures x < y <==> x * c < y * c
  {
    assert (y - x) * c == y * c - x * c;
  }

  datatype Complex = Complex(re: real, im: real)

  /** A point in time, in nanoseconds (pandas datetime64[ns]). */
  datatype Timestamp = Timestamp(nanos: int)

  /** A length of time, in nanoseconds (pandas timedelta64[ns]). */
  datatype Duration = Duration(nanos: int)

  /** One cell of a converted column; Missing is pandas' NaN / NaT / <NA>. */
  datatype Value =
    | Missing
    | Int(i: int)
    | Real(r: real)
    | Flag(b: bool)
    | Cplx(z: Complex)
    | Time(t: Timestamp)
    | Span(d: Duration)
    | Label(s: string)

  /** The pandas dtypes a column can be converted to. */
  datatype DType = Int64 | Float64 | Bool | Complex128 | DateTime64 | TimeDelta64 | Category

  /** A column's contents: still text (pandas object dtype holding strings), or converted. */
  datatype ColumnData = Text(cells: seq<string>) | Typed(dtype: DType, values: seq<Value>)

  datatype Column = Column(name: string, data: ColumnData)

  function Length(d: ColumnData): nat
  {
    match d
    case Text(cells) => |cells|
    case Typed(_, values) => |values|
  }

  /** The dtype names of the wire vocabulary (str(dtype) in pandas). */
  function WireName(t: DType): string
  {
    match t
    case Int64 => "Int64"
    case Float64 => "float64"
    case Bool => "bool"
    case Complex128 => "complex128"
    case DateTime64 => "datetime64[ns]"
    case TimeDelta64 => "timedelta64[ns]"
    case Category => "category"
  }

  const TextName := "object"

  /** The name a caller sees for a column's type. */
  function TypeName(d: ColumnData): string
  {
    match d
    case Text(_) => TextName
    case Typed(t, _) => WireName(t)
  }

  /** The parsing routines of the data-frame library, applied to one cell; each is
      partial (None where the library yields NaN/NaT or raises) and otherwise opaque. */
  datatype Library = Library(
    toNumeric: string -> Option<real>,
    toDatetime: string -> Option<Timestamp>,
    toDatetimeDayFirst: string -> Option<Timestamp>,
    toDatetimeWithFormat: (string, string) -> Option<Timestamp>,
    toTimedelta: string -> Option<Duration>,
    toComplex: string -> Option<Complex>)

  predicate DistinctNames(cols: seq<Column>)
  {
    forall i, j | 0 <= i < j < |cols| :: cols[i].name != cols[j].name
  }

  predicate Rectangular(cols: seq<Column>, rows: nat)
  {
    forall i | 0 <= i < |cols| :: Length(cols[i].data) == rows
  }

  predicate AllText(cols: seq<Column>)
  {
    forall i | 0 <= i < |cols| :: cols[i].data.Text?
  }

  /** Position of the column called name (how df[name] finds it). */
  function IndexOf(cols: seq<Column>, name: string): (r: Option<nat>)
    ensures r.Some? ==> r.value < |cols| && cols[r.value].name == name
    ensures r.None? <==> forall i | 0 <= i < |cols| :: cols[i].name != name
    ensures r.Some? ==> forall i | 0 <= i < r.value :: cols[i].name != name
  {
    if cols == [] then None
    else if cols[0].name == name then Some(0)
    else match IndexOf(cols[1..], name)
      case None => None
      case Some(i) => Some(i + 1)
  }

  /** A data frame: named columns of equal length, updated column by column in place. */
  class Frame {
    var columns: seq<Column>
    const rows: nat

    ghost predicate Valid()
      reads this
    {
      DistinctNames(columns) && Rectangular(columns, rows)
    }

    constructor (columns: seq<Column>, rows: nat)
      requires DistinctNames(columns) && Rectangular(columns, rows)
      ensures Valid() && this.columns == columns && this.rows == rows
    {
      this.columns := columns;
      this.rows := rows;
    }
  }
}
