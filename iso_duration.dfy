/** parse_iso_8601_duration (backend/api/views.py:52-63): the whole text must be "P",
    then optional numbered Y, M, W and D parts in that order, then an optional "T"
    followed by optional numbered H, M and S parts. The captured numerals are then
    added up, with a year taken as 365 days, a month as 30 days and a week as 7 days. The grammar is modelled twice: as a
    renderer from captured groups to text (the language the pattern accepts is exactly
    the image of Render) and as a reader; the two are proved inverse. */
module IsoDuration {
  import opened Frames
  import opened Patterns

  /** What one optional numbered part captured: its digits, or nothing. */
  predicate WellFormedGroup(g: Option<string>)
  {
    g.Some? ==> Numeral(g.value)
  }

  predicate WellFormedGroups(gs: seq<Option<string>>)
  {
    forall i | 0 <= i < |gs| :: WellFormedGroup(gs[i])
  }

  /** The text one group matched. */
  function Tagged(g: Option<string>, tag: char): string
  {
    match g
    case None => ""
    case Some(d) => d + [tag]
  }

  function RenderGroups(gs: seq<Option<string>>, tags: seq<char>): string
    requires |gs| == |tags|
  {
    if tags == [] then "" else Tagged(gs[0], tags[0]) + RenderGroups(gs[1..], tags[1..])
  }

  /** The digits at the start of s are not followed by tag, so the group for tag
      cannot match here. */
  predicate NoGroup(s: string, tag: char)
  {
    var k := Run(s, Digits);
    k == 0 || k == |s| || s[k] != tag
  }

  /** Reads one optional group: its numeral and what follows, or nothing. */
  function ReadGroup(s: string, tag: char): (r: (Option<string>, string))
    ensures r.0.None? ==> r.1 == s && NoGroup(s, tag)
    ensures r.0.Some? ==> Numeral(r.0.value) && s == r.0.value + [tag] + r.1
  {
    var k := Run(s, Digits);
    if NoGroup(s, tag) then (None, s) else (Some(s[..k]), s[k + 1..])
  }

  lemma ConsTail<T>(x: T, xs: seq<T>)
    ensures ([x] + xs)[1..] == xs && ([x] + xs)[0] == x
  {
  }

  lemma Associative<T>(a: seq<T>, b: seq<T>, c: seq<T>)
    ensures a + (b + c) == (a + b) + c
  {
  }

  /** Reads the optional groups for tags, in order; what it reads renders back to
      the text consumed. */
  function ReadGroups(s: string, tags: seq<char>): (r: (seq<Option<string>>, string))
    ensures |r.0| == |tags| && WellFormedGroups(r.0)
    ensures s == RenderGroups(r.0, tags) + r.1
    decreases |tags|
  {
    if tags == [] then ([], s)
    else
      var head := ReadGroup(s, tags[0]);
      var more := ReadGroups(head.1, tags[1..]);
      ConsTail(head.0, more.0);
      Associative(Tagged(head.0, tags[0]), RenderGroups(more.0, tags[1..]), more.1);
      ([head.0] + more.0, more.1)
  }

  /** The designators of the date part and of the time part, in pattern order. */
  const DateTags: seq<char> := ['Y', 'M', 'W', 'D']
  const TimeTags: seq<char> := ['H', 'M', 'S']

  /** The captured groups of a match: years, months, weeks, days; and, when the `T`
      part is present, hours, minutes, seconds. */
  datatype IsoFields = IsoFields(date: seq<Option<string>>, time: Option<seq<Option<string>>>)

  predicate WellFormed(f: IsoFields)
  {
    |f.date| == 4 && WellFormedGroups(f.date) &&
    (f.time.Some? ==> |f.time.value| == 3 && WellFormedGroups(f.time.value))
  }

  /** The text of the optional `T` part. */
  function TimeText(time: Option<seq<Option<string>>>): string
    requires time.Some? ==> |time.value| == 3
  {
    match time
    case None => ""
    case Some(ts) => "T" + RenderGroups(ts, TimeTags)
  }

  /** The text that matches the pattern with exactly these captures. */
  function Render(f: IsoFields): string
    requires WellFormed(f)
  {
    "P" + RenderGroups(f.date, DateTags) + TimeText(f.time)
  }

  /** Reads the optional `T` part, which must run to the end of the text: Some(None)
      when it is absent, Some(Some(groups)) when present, None when the text does not
      match. */
  function ReadTime(rest: string): (r: Option<Option<seq<Option<string>>>>)
    ensures r.Some? ==> (r.value.Some? ==> |r.value.value| == 3 && WellFormedGroups(r.value.value))
    ensures r.Some? ==> TimeText(r.value) == rest
  {
    if rest == [] then Some(None)
    else if rest[0] != 'T' then None
    else
      var groups := ReadGroups(rest[1..], TimeTags);
      HeadTail(rest);
      if groups.1 == [] then Some(Some(groups.0)) else None
  }

  lemma HeadTail(s: string)
    requires |s| > 0
    ensures s == [s[0]] + s[1..]
  {
  }

  /** re.fullmatch of the pattern: the captures, or None when s does not match. */
  function ParseFields(s: string): (r: Option<IsoFields>)
    ensures r.Some? ==> WellFormed(r.value) && Render(r.value) == s
  {
    if s == [] || s[0] != 'P' then None
    else
      var date := ReadGroups(s[1..], DateTags);
      HeadTail(s);
      match ReadTime(date.1)
      case None => None
      case Some(time) =>
        Reassemble(s, RenderGroups(date.0, DateTags), TimeText(time));
        Some(IsoFields(date.0, time))
  }

  lemma Reassemble(s: string, groups: string, rest: string)
    requires |s| > 0 && s[1..] == groups + rest
    ensures s == [s[0]] + groups + rest
  {
    HeadTail(s);
    Associative([s[0]], groups, rest);
  }

  lemma RunOfTagged(d: string, tag: char, rest: string)
    requires Numeral(d) && !IsDigit(tag)
    ensures Run(d + [tag] + rest, Digits) == |d|
  {
    RunIs(d + [tag] + rest, Digits, |d|);
  }

  lemma SplitTagged(d: string, c: char, rest: string)
    ensures (d + [c] + rest)[..|d|] == d && (d + [c] + rest)[|d|] == c
    ensures (d + [c] + rest)[|d| + 1..] == rest
  {
  }

  lemma EmptyPrefix<T>(t: seq<T>)
    ensures [] + t == t
  {
  }

  /** A group absent at the current point stays absent whatever later groups show. */
  lemma {:induction false} NoGroupAfter(gs: seq<Option<string>>, tags: seq<char>, tail: string, t: char)
    requires |gs| == |tags| && WellFormedGroups(gs)
    requires forall i | 0 <= i < |tags| :: tags[i] != t && !IsDigit(tags[i])
    requires NoGroup(tail, t)
    ensures NoGroup(RenderGroups(gs, tags) + tail, t)
    decreases |tags|
  {
    if tags == [] {
      EmptyPrefix(tail);
    } else {
      var rest := RenderGroups(gs[1..], tags[1..]) + tail;
      Associative(Tagged(gs[0], tags[0]), RenderGroups(gs[1..], tags[1..]), tail);
      match gs[0]
      case None =>
        EmptyPrefix(rest);
        NoGroupAfter(gs[1..], tags[1..], tail, t);
      case Some(d) =>
        RunOfTagged(d, tags[0], rest);
        SplitTagged(d, tags[0], rest);
    }
  }

  /** Reading what was rendered gives back the same captures. */
  lemma {:induction false} ReadRendered(gs: seq<Option<string>>, tags: seq<char>, tail: string)
    requires |gs| == |tags| && WellFormedGroups(gs)
    requires forall i | 0 <= i < |tags| :: !IsDigit(tags[i]) && NoGroup(tail, tags[i])
    requires forall i, j | 0 <= i < j < |tags| :: tags[i] != tags[j]
    ensures ReadGroups(RenderGroups(gs, tags) + tail, tags) == (gs, tail)
    decreases |tags|
  {
    if tags == [] {
      EmptyPrefix(tail);
    } else {
      var s := RenderGroups(gs, tags) + tail;
      var rest := RenderGroups(gs[1..], tags[1..]) + tail;
      Associative(Tagged(gs[0], tags[0]), RenderGroups(gs[1..], tags[1..]), tail);
      ReadRendered(gs[1..], tags[1..], tail);
      assert [gs[0]] + gs[1..] == gs;
      match gs[0] {
        case None =>
          EmptyPrefix(rest);
          NoGroupAfter(gs[1..], tags[1..], tail, tags[0]);
          assert ReadGroup(s, tags[0]) == (None, rest);
        case Some(d) =>
          RunOfTagged(d, tags[0], rest);
          SplitTagged(d, tags[0], rest);
          assert ReadGroup(s, tags[0]) == (Some(d), rest);
      }
    }
  }

  /** Every match reads back to its own captures, so the captures are unique. */
  lemma RoundTrip(f: IsoFields)
    requires WellFormed(f)
    ensures ParseFields(Render(f)) == Some(f)
  {
    var s := Render(f);
    var timeText := TimeText(f.time);
    HeadAfter('P', RenderGroups(f.date, DateTags), timeText);
    assert s[1..] == RenderGroups(f.date, DateTags) + timeText;
    ReadTimeRendered(f.time);
    Untagged(timeText, DateTags);
    ReadRendered(f.date, DateTags, timeText);
    assert ReadGroups(s[1..], DateTags) == (f.date, timeText);
  }

  lemma ReadTimeRendered(time: Option<seq<Option<string>>>)
    requires time.Some? ==> |time.value| == 3 && WellFormedGroups(time.value)
    ensures ReadTime(TimeText(time)) == Some(time)
    ensures TimeText(time) == [] || !IsDigit(TimeText(time)[0])
  {
    if time.Some? {
      var ts := time.value;
      var body := RenderGroups(ts, TimeTags);
      var text := TimeText(time);
      assert text == ['T'] + body;
      assert text[1..] == body + "" by {
        HeadAfter('T', body, "");
      }
      Untagged("", TimeTags);
      ReadRendered(ts, TimeTags, "");
      assert ReadGroups(text[1..], TimeTags) == (ts, "");
    }
  }

  lemma HeadAfter(c: char, body: string, tail: string)
    ensures var s := [c] + body + tail; |s| > 0 && s[0] == c && s[1..] == body + tail
  {
    assert ([c] + body + tail)[1..] == body + tail;
  }

  /** Text that is empty or starts with a non-digit opens no group. */
  lemma Untagged(s: string, tags: seq<char>)
    requires s == [] || !IsDigit(s[0])
    ensures forall i | 0 <= i < |tags| :: NoGroup(s, tags[i])
  {
    RunIs(s, Digits, 0);
  }

  lemma AbsentGroups(gs: seq<Option<string>>, tags: seq<char>)
    requires |gs| == |tags| && forall i | 0 <= i < |gs| :: gs[i].None?
    ensures RenderGroups(gs, tags) == ""
  {
  }

  /** `int(v) if v else 0` for one captured group. */
  function Amount(g: Option<string>): nat
    requires WellFormedGroup(g)
  {
    match g
    case None => 0
    case Some(d) => NumeralValue(d)
  }

  /** The arguments handed to timedelta(days=..., seconds=...). */
  datatype DaysSeconds = DaysSeconds(days: nat, seconds: nat)

  function Total(f: IsoFields): DaysSeconds
    requires WellFormed(f)
  {
    var time := if f.time.Some? then f.time.value else [None, None, None];
    DaysSeconds(
      365 * Amount(f.date[0]) + 30 * Amount(f.date[1]) + 7 * Amount(f.date[2]) + Amount(f.date[3]),
      3600 * Amount(time[0]) + 60 * Amount(time[1]) + Amount(time[2]))
  }

  /** parse_iso_8601_duration: the (days, seconds) of the duration, or None (NaN). */
  function ParseIsoDuration(s: string): Option<DaysSeconds>
  {
    match ParseFields(s)
    case None => None
    case Some(f) => Some(Total(f))
  }

  /** The result is missing exactly when the text does not match the pattern. */
  lemma MissingIffNoMatch(s: string)
    ensures ParseIsoDuration(s).None? <==> forall f :: WellFormed(f) ==> Render(f) != s
  {
    if ParseIsoDuration(s).None? {
      forall f | WellFormed(f) ensures Render(f) != s {
        RoundTrip(f);
      }
    }
  }

  /** On a match the components are added up with the fixed approximations. */
  lemma DurationOfMatch(f: IsoFields)
    requires WellFormed(f)
    ensures ParseIsoDuration(Render(f)) == Some(Total(f))
  {
    RoundTrip(f);
  }

  /** An `M` before the `T` counts months; an `M` after it counts minutes. */
  lemma MonthsThenMinutes(d: string)
    requires Numeral(d)
    ensures ParseIsoDuration("P" + d + "M") == Some(DaysSeconds(30 * NumeralValue(d), 0))
    ensures ParseIsoDuration("PT" + d + "M") == Some(DaysSeconds(0, 60 * NumeralValue(d)))
  {
    Months(d);
    Minutes(d);
  }

  lemma Months(d: string)
    requires Numeral(d)
    ensures ParseIsoDuration("P" + d + "M") == Some(DaysSeconds(30 * NumeralValue(d), 0))
  {
    var f := IsoFields([None, Some(d), None, None], None);
    MonthsFields(d);
    DurationOfMatch(f);
  }

  lemma MonthsFields(d: string)
    requires Numeral(d)
    ensures var f := IsoFields([None, Some(d), None, None], None);
      WellFormed(f) && Render(f) == "P" + d + "M" && Total(f) == DaysSeconds(30 * NumeralValue(d), 0)
  {
    SecondGroup(d, [None, Some(d), None, None], DateTags);
  }

  lemma Minutes(d: string)
    requires Numeral(d)
    ensures ParseIsoDuration("PT" + d + "M") == Some(DaysSeconds(0, 60 * NumeralValue(d)))
  {
    var f := IsoFields([None, None, None, None], Some([None, Some(d), None]));
    MinutesFields(d);
    DurationOfMatch(f);
  }

  lemma MinutesFields(d: string)
    requires Numeral(d)
    ensures var f := IsoFields([None, None, None, None], Some([None, Some(d), None]));
      WellFormed(f) && Render(f) == "PT" + d + "M" && Total(f) == DaysSeconds(0, 60 * NumeralValue(d))
  {
    var f := IsoFields([None, None, None, None], Some([None, Some(d), None]));
    assert Render(f) == "PT" + d + "M" by {
      SecondGroup(d, [None, Some(d), None], TimeTags);
      AbsentGroups([None, None, None, None], DateTags);
      assert "P" + "" + ("T" + (d + "M")) == "PT" + d + "M";
    }
    assert WellFormed(f);
    assert Total(f) == DaysSeconds(0, 60 * NumeralValue(d));
  }

  /** Only the second group present, with M as its designator (both tag lists). */
  lemma SecondGroup(d: string, gs: seq<Option<string>>, tags: seq<char>)
    requires |gs| == |tags| >= 2 && tags[1] == 'M'
    requires gs[0] == None && gs[1] == Some(d) && forall i | 2 <= i < |gs| :: gs[i].None?
    ensures RenderGroups(gs, tags) == d + "M"
  {
    AbsentGroups(gs[2..], tags[2..]);
    assert gs[1..][1..] == gs[2..];
  }

  /** The bare "P" and "PT" match and give a zero duration. */
  lemma EmptyDurations()
    ensures ParseIsoDuration("P") == Some(DaysSeconds(0, 0))
    ensures ParseIsoDuration("PT") == Some(DaysSeconds(0, 0))
  {
    BareP();
    BarePT();
  }

  lemma BareP()
    ensures ParseIsoDuration("P") == Some(DaysSeconds(0, 0))
  {
    var f := IsoFields([None, None, None, None], None);
    BarePFields();
    DurationOfMatch(f);
  }

  lemma BarePFields()
    ensures var f := IsoFields([None, None, None, None], None);
      WellFormed(f) && Render(f) == "P" && Total(f) == DaysSeconds(0, 0)
  {
    AbsentGroups([None, None, None, None], DateTags);
    assert "P" + "" + "" == "P";
  }

  lemma BarePT()
    ensures ParseIsoDuration("PT") == Some(DaysSeconds(0, 0))
  {
    var f := IsoFields([None, None, None, None], Some([None, None, None]));
    BarePTFields();
    DurationOfMatch(f);
  }

  lemma BarePTFields()
    ensures var f := IsoFields([None, None, None, None], Some([None, None, None]));
      WellFormed(f) && Render(f) == "PT" && Total(f) == DaysSeconds(0, 0)
  {
    AbsentGroups([None, None, None, None], DateTags);
    AbsentGroups([None, None, None], TimeTags);
    assert "P" + "" + ("T" + "") == "PT";
  }

  /** The duration as a timedelta64[ns] value. */
  function ToDuration(ds: DaysSeconds): Duration
  {
    Duration((ds.days * 86400 + ds.seconds) * 1000000000)
  }

  /** The ISO parser's result for one cell, as a timedelta value or missing. */
  function IsoCell(s: string): Value
  {
    match ParseIsoDuration(s)
    case None => Missing
    case Some(ds) => Span(ToDuration(ds))
  }

  /** The ISO parser applied to every cell of a column. */
  function IsoCells(cells: seq<string>): (vs: seq<Value>)
    ensures |vs| == |cells|
  {
    if cells == [] then [] else [IsoCell(cells[0])] + IsoCells(cells[1..])
  }

  lemma {:induction false} IsoCellsAt(cells: seq<string>, i: nat)
    requires i < |cells|
    ensures IsoCells(cells)[i] == IsoCell(cells[i])
  {
    if i > 0 {
      IsoCellsAt(cells[1..], i - 1);
    }
  }

  /** A cell is missing exactly when it does not match; otherwise it is a non-negative
      duration. */
  lemma IsoCellOutcome(s: string)
    ensures IsoCell(s) == Missing <==> forall f :: WellFormed(f) ==> Render(f) != s
    ensures IsoCell(s) != Missing ==> IsoCell(s).Span? && IsoCell(s).d.nanos >= 0
  {
    MissingIffNoMatch(s);
  }
}
