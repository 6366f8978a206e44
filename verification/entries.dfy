/** The per-entry records of a profile: `Education.create`,
    `Position.create` and `Location.create`. None of them can fail: every
    missing or malformed field becomes `None`. */
module Entries {
  import opened Wrappers
  import opened Dom
  import opened Dates

  datatype Education = Education(
    id: Option<string>,
    schoolName: Option<string>,
    degree: Option<string>,
    startDate: Option<Date>,
    endDate: Option<Date>,
    activities: Option<string>,
    notes: Option<string>,
    fieldOfStudy: Option<string>)

  datatype Position = Position(
    id: Option<string>,
    title: Option<string>,
    summary: Option<string>,
    startDate: Option<Date>,
    endDate: Option<Date>,
    company: Option<string>)

  datatype Location = Location(name: Option<string>, countryCode: Option<string>)

  /** Both dates of an entry, when present, are valid first-of-month dates. */
  predicate DatesValid(start: Option<Date>, end: Option<Date>) {
    && (start.Some? ==> ValidDate(start.value) && start.value.day == 1)
    && (end.Some? ==> ValidDate(end.value) && end.value.day == 1)
  }

  /** One `education` element turned into a record. */
  function EducationOf(entry: Node): (r: Education)
    ensures DatesValid(r.startDate, r.endDate)
    ensures NoneTagged(entry, "start-date") ==> r.startDate.None?
    ensures NoneTagged(entry, "end-date") ==> r.endDate.None?
  {
    Education(
      id := GetChild(entry, "id"),
      schoolName := GetChild(entry, "school-name"),
      degree := GetChild(entry, "degree"),
      startDate := DateField(entry, "start-date"),
      endDate := DateField(entry, "end-date"),
      activities := GetChild(entry, "activities"),
      notes := GetChild(entry, "notes"),
      fieldOfStudy := GetChild(entry, "field-of-study"))
  }

  /** `Education.create`: one record per `education` element below `node`,
      in document order. */
  function Educations(node: Node): (r: seq<Education>)
    ensures |r| == |Tagged(Descendants(node), "education")|
    ensures forall i :: 0 <= i < |r| ==> r[i] == EducationOf(Tagged(Descendants(node), "education")[i])
    ensures forall i :: 0 <= i < |r| ==> DatesValid(r[i].startDate, r[i].endDate)
  {
    var es := ElementsByTagName(node, "education");
    seq(|es|, i requires 0 <= i < |es| => EducationOf(es[i]))
  }

  /** One `position` element turned into a record. */
  function PositionOf(entry: Node): (r: Position)
    ensures DatesValid(r.startDate, r.endDate)
    ensures NoneTagged(entry, "company") ==> r.company.None?
    ensures NoneTagged(entry, "start-date") ==> r.startDate.None?
    ensures NoneTagged(entry, "end-date") ==> r.endDate.None?
  {
    Position(
      id := GetChild(entry, "id"),
      title := GetChild(entry, "title"),
      summary := GetChild(entry, "summary"),
      startDate := DateField(entry, "start-date"),
      endDate := DateField(entry, "end-date"),
      company := match FirstByTag(entry, "company")
                 case None => None
                 case Some(c) => GetChild(c, "name"))
  }

  /** The company of a position is the `name` text of the first `company`
      element below the entry, and `None` when there is no such element. */
  lemma PositionCompany(entry: Node)
    ensures NoneTagged(entry, "company") ==> PositionOf(entry).company.None?
    ensures forall i :: FirstTaggedAt(Descendants(entry), "company", i) ==>
      PositionOf(entry).company == GetChild(Descendants(entry)[i], "name")
  {
    FirstByTagIsFirst(entry, "company");
  }

  /** `Position.create`: one record per `position` element below `node`,
      in document order. */
  function Positions(node: Node): (r: seq<Position>)
    ensures |r| == |Tagged(Descendants(node), "position")|
    ensures forall i :: 0 <= i < |r| ==> r[i] == PositionOf(Tagged(Descendants(node), "position")[i])
    ensures forall i :: 0 <= i < |r| ==> DatesValid(r[i].startDate, r[i].endDate)
  {
    var ps := ElementsByTagName(node, "position");
    seq(|ps|, i requires 0 <= i < |ps| => PositionOf(ps[i]))
  }

  /** `Location.create`: the `name` text, and the `code` text of the first
      `country` element when there is one. It cannot fail. */
  function LocationOf(node: Node): (r: Location)
    ensures NoneTagged(node, "country") ==> r.countryCode.None?
  {
    Location(
      name := GetChild(node, "name"),
      countryCode := match FirstByTag(node, "country")
                     case None => None
                     case Some(c) => GetChild(c, "code"))
  }

  /** The fields of a location in terms of document order: the name is the
      text of the first `name` element, the country code the `code` text of
      the first `country` element. */
  lemma LocationFields(node: Node)
    ensures forall i :: FirstTaggedAt(Descendants(node), "name", i) ==>
      LocationOf(node).name == FirstText(Descendants(node)[i])
    ensures NoneTagged(node, "name") ==> LocationOf(node).name.None?
    ensures NoneTagged(node, "country") ==> LocationOf(node).countryCode.None?
    ensures forall i :: FirstTaggedAt(Descendants(node), "country", i) ==>
      LocationOf(node).countryCode == GetChild(Descendants(node)[i], "code")
  {
    GetChildReadsFirst(node, "name");
    FirstByTagIsFirst(node, "country");
  }

  /** `<location><name>name</name><country><code>code</code></country></location>`. */
  function LocationXml(name: string, code: string): Node {
    Element("location", map[], [
      Element("name", map[], [Text(name)]),
      Element("country", map[], [Element("code", map[], [Text(code)])])])
  }

  /** A location written in the documented shape reads back unchanged. */
  lemma LocationXmlRoundTrip(name: string, code: string)
    ensures LocationOf(LocationXml(name, code)) == Location(Some(name), Some(code))
  {
    var nameNode := Element("name", map[], [Text(name)]);
    var codeNode := Element("code", map[], [Text(code)]);
    var country := Element("country", map[], [codeNode]);
    LeafDescendants("name", name);
    LeafDescendants("code", code);
    DescendantsCons("country", map[], codeNode, []);
    assert [codeNode] + [] == [codeNode];
    assert Descendants(country) == [codeNode, Text(code)];
    assert FirstTaggedAt(Descendants(country), "code", 0);
    GetChildReadsFirst(country, "code");
    DescendantsCons("location", map[], nameNode, [country]);
    DescendantsCons("location", map[], country, []);
    assert [nameNode] + [country] == [nameNode, country];
    assert [country] + [] == [country];
    assert Descendants(LocationXml(name, code)) == [nameNode, Text(name), country, codeNode, Text(code)];
    assert FirstTaggedAt(Descendants(LocationXml(name, code)), "name", 0);
    assert FirstTaggedAt(Descendants(LocationXml(name, code)), "country", 2);
    LocationFields(LocationXml(name, code));
  }
}
