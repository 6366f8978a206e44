/** Calendar dates as `datetime.date` validates them, and the two-stage
    year/month parse of a `start-date` or `end-date` element. */
module Dates {
  import opened Wrappers
  import opened PyInt
  import opened Dom

  /** `datetime.MINYEAR` and `datetime.MAXYEAR`. */
  const MinYear: int := 1
  const MaxYear: int := 9999

  datatype Date = Date(year: int, month: int, day: int)

  predicate IsLeapYear(y: int) {
    y % 4 == 0 && (y % 100 != 0 || y % 400 == 0)
  }

  function DaysInMonth(y: int, m: int): int
    requires 1 <= m <= 12
  {
    if m == 2 then (if IsLeapYear(y) then 29 else 28)
    else if m == 4 || m == 6 || m == 9 || m == 11 then 30
    else 31
  }

  /** A date of the proleptic Gregorian calendar within `datetime`'s range. */
  predicate ValidDate(d: Date) {
    && MinYear <= d.year <= MaxYear
    && 1 <= d.month <= 12
    && 1 <= d.day <= DaysInMonth(d.year, d.month)
  }

  /** The constructor `datetime.date(y, m, d)`: raises `ValueError` on any
      component out of range. */
  function MakeDate(y: int, m: int, d: int): (r: Result<Date, PyError>)
    ensures r.Success? <==> ValidDate(Date(y, m, d))
    ensures r.Success? ==> r.value == Date(y, m, d)
    ensures r.Failure? ==> r.error == ValueError
  {
    if !(MinYear <= y <= MaxYear) then Failure(ValueError)
    else if !(1 <= m <= 12) then Failure(ValueError)
    else if !(1 <= d <= DaysInMonth(y, m)) then Failure(ValueError)
    else Success(Date(y, m, d))
  }

  /** The `try` block on a date element, given the outcomes of `int()` on
      its `year` and `month` texts: set the date to January 1st of the year,
      then refine it to the first of the month; an exception at any step
      keeps the value reached so far (`None` or the year-only date). */
  function TwoStageDate(year: Result<int, PyError>, month: Result<int, PyError>): (r: Option<Date>)
    ensures r.Some? ==> ValidDate(r.value) && r.value.day == 1
    ensures r.Some? <==> year.Success? && MinYear <= year.value <= MaxYear
    ensures r.Some? ==> r.value.year == year.value
    ensures r.Some? ==> r.value.month == if month.Success? && 1 <= month.value <= 12 then month.value else 1
  {
    match year
    case Failure(_) => None
    case Success(y) =>
      match MakeDate(y, 1, 1)
      case Failure(_) => None
      case Success(yearOnly) =>
        match month
        case Failure(_) => Some(yearOnly)
        case Success(m) =>
          match MakeDate(y, m, 1)
          case Failure(_) => Some(yearOnly)
          case Success(full) => Some(full)
  }

  /** The parse of one date element: `int()` of its `year` and `month` texts
      fed to the two stages. */
  function ParseDate(dn: Node): (r: Option<Date>)
    ensures r.Some? ==> ValidDate(r.value) && r.value.day == 1
  {
    TwoStageDate(ParseInt(GetChild(dn, "year")), ParseInt(GetChild(dn, "month")))
  }

  /** The optional date held by the first `tag` element below `entry`
      (`tag` is `start-date` or `end-date`); `None` when there is none. */
  function DateField(entry: Node, tag: string): (r: Option<Date>)
    ensures NoneTagged(entry, tag) ==> r.None?
    ensures r.Some? ==> ValidDate(r.value) && r.value.day == 1
  {
    match FirstByTag(entry, tag)
    case None => None
    case Some(dn) => ParseDate(dn)
  }

  /** A date element `<tag><year>y</year><month>m</month></tag>`, the month
      element present only when `month` is. */
  function DateXml(tag: string, year: int, month: Option<int>): Node {
    var yearNode := Element("year", map[], [Text(IntToString(year))]);
    match month
    case None => Element(tag, map[], [yearNode])
    case Some(m) => Element(tag, map[], [yearNode, Element("month", map[], [Text(IntToString(m))])])
  }

  /** The text of the `year` element of a written date element is the year written. */
  lemma DateXmlYear(tag: string, year: int, month: Option<int>)
    ensures GetChild(DateXml(tag, year, month), "year") == Some(IntToString(year))
  {
    var dn := DateXml(tag, year, month);
    var ys := IntToString(year);
    var yearNode := Element("year", map[], [Text(ys)]);
    LeafDescendants("year", ys);
    assert dn.children[0] == yearNode;
    assert dn.children == [yearNode] + dn.children[1..];
    DescendantsCons(tag, map[], yearNode, dn.children[1..]);
    assert Descendants(dn)[0] == yearNode;
    assert FirstTaggedAt(Descendants(dn), "year", 0);
    GetChildReadsFirst(dn, "year");
  }

  /** The nodes below a written date element, in document order. */
  lemma DateXmlNodes(tag: string, year: int, month: Option<int>)
    ensures Descendants(DateXml(tag, year, month))
            == [Element("year", map[], [Text(IntToString(year))]), Text(IntToString(year))]
               + (if month.Some? then [Element("month", map[], [Text(IntToString(month.value))]),
                                      Text(IntToString(month.value))]
                  else [])
  {
    var ys := IntToString(year);
    var yearNode := Element("year", map[], [Text(ys)]);
    LeafDescendants("year", ys);
    if month.Some? {
      var ms := IntToString(month.value);
      var monthNode := Element("month", map[], [Text(ms)]);
      LeafDescendants("month", ms);
      DescendantsCons(tag, map[], yearNode, [monthNode]);
      DescendantsCons(tag, map[], monthNode, []);
      assert [yearNode] + [monthNode] == [yearNode, monthNode];
      assert [monthNode] + [] == [monthNode];
    } else {
      DescendantsCons(tag, map[], yearNode, []);
      assert [yearNode] + [] == [yearNode];
    }
  }

  /** The `month` element of a written date element holds the month written,
      and is missing when no month is written. */
  lemma DateXmlMonth(tag: string, year: int, month: Option<int>)
    ensures GetChild(DateXml(tag, year, month), "month")
            == if month.Some? then Some(IntToString(month.value)) else None
  {
    var dn := DateXml(tag, year, month);
    DateXmlNodes(tag, year, month);
    GetChildReadsFirst(dn, "month");
    if month.Some? {
      assert FirstTaggedAt(Descendants(dn), "month", 2);
    } else {
      assert NoneTagged(dn, "month");
    }
  }

  /** Reading back a written date element gives the first of the month
      written, or January 1st when no month is written. */
  lemma DateXmlRoundTrip(tag: string, d: Date, withMonth: bool)
    requires ValidDate(d) && d.day == 1
    ensures ParseDate(DateXml(tag, d.year, if withMonth then Some(d.month) else None))
            == Some(if withMonth then d else Date(d.year, 1, 1))
  {
    var month := if withMonth then Some(d.month) else None;
    DateXmlYear(tag, d.year, month);
    DateXmlMonth(tag, d.year, month);
    ParseIntRoundTrip(d.year);
    ParseIntRoundTrip(d.month);
  }
}
