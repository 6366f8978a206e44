# LinkedIn profile deserializer, modelled in Dafny

`linkedin/model.py` turns the XML documents returned by LinkedIn's Profile
API into Python records: a `Profile` with its scalar fields, its location,
its relation to the viewer, its connections (again profiles), skills,
languages, positions and educations. This project models that
deserializer as pure functions over an immutable, already-parsed document
tree, and proves what each step yields.

Modules, leaves first:

- `Wrappers` (`wrappers.dfy`): `Option` and `Result`.
- `Dom` (`dom.dfy`): the document tree (`Element(tag, attrs, children)` or
  `Text(data)`), minidom's `getElementsByTagName` (a pre-order search of
  the descendants that excludes the node itself) and `get_child`. The
  search is defined the way minidom computes it and proved equal to an
  independent reference: the pre-order list of descendants filtered by tag.
- `PyInt` (`pyint.dfy`): `int()` on the text `get_child` returns: `None`
  raises `TypeError`, a malformed string raises `ValueError`.
- `Dates` (`dates.dfy`): `datetime.date`'s validity rule and the two-stage
  year/month parse of `start-date` and `end-date` elements.
- `Entries` (`entries.dfy`): `Education.create`, `Position.create`,
  `Location.create`.
- `Profiles` (`profiles.dfy`): `parse_connections`,
  `RelationToViewer.create`, `Profile.create` and `Profile._unescape`.
  The first three are mutually recursive (a profile holds a
  relation-to-viewer, which holds connections, which are profiles); every
  call descends to a strictly smaller tree, which is the termination
  measure.
- `ProfileExamples` (`scenarios.dfy`): small documents of the shapes the
  parser reads, with their texts left as parameters, and what the parser
  makes of them.

Python exceptions become `Result.Failure` with a `PyError`. Where the
source swallows them (`get_child`'s bare `except`, the date `try` blocks,
the blanket `except` of `Profile.create`), the model returns the value
the source falls back to (`None`, the year-only date, no profile).

A reader of `RelationToViewer.create`'s docstring might expect a
`connections` element's `total` attribute to supply the related-connection
count when no `num-related-connections` element is present, as in the
docstring's own example. The code instead converts that element's text
with an unguarded `int()` first (`linkedin/model.py:233`), so a missing
element raises `TypeError` and the whole profile is discarded; `total` is
used only when the count parses to `0` (`linkedin/model.py:238-240`). The
model follows the code. `DocstringRelationFails` shows that the
relation-to-viewer in that docstring is rejected for exactly this reason.

## Model

| member | source | states |
|---|---|---|
| Dom.ElementsByTagName | linkedin/model.py:8 | the elements found are exactly the descendants tagged `t`, in pre-order, the node itself excluded; each is a strictly smaller tree |
| Dom.FirstByTag | linkedin/model.py:8 | `getElementsByTagName(t)[0]` is absent exactly when no descendant is tagged `t`; otherwise it is a strictly smaller element tagged `t` |
| Dom.FirstByTagIsFirst | linkedin/model.py:8 | the element taken is the first descendant tagged `t` in document order |
| Dom.GetChild | linkedin/model.py:6-14 | `get_child` never fails and is `None` whenever no descendant is tagged `t` |
| Dom.GetChildReadsFirst | linkedin/model.py:6-14 | `get_child` is the text of the first child of the first descendant tagged `t`, and `None` if that child is missing or is an element |
| Dom.GetChildSomeIff | linkedin/model.py:6-14 | `get_child` yields `s` if and only if the first descendant tagged `t` has the text node `s` as its first child |
| Dom.FirstByTagCons | linkedin/model.py:8 | the search visits the first child, then the nodes below it, then the remaining children |
| PyInt.ParseInt | linkedin/model.py:232-233 | `int()` succeeds exactly on an optional sign followed by decimal digits; `None` raises `TypeError`, any other text `ValueError` |
| PyInt.ParseIntRoundTrip | linkedin/model.py:232-233 | `int(str(k)) == k` for every integer `k` |
| Dates.MakeDate | linkedin/model.py:85 | `datetime.date(y, m, d)` succeeds exactly on a valid calendar date in years 1..9999 and raises `ValueError` otherwise |
| Dates.TwoStageDate | linkedin/model.py:83-89 | the date exists exactly when the year parses into 1..9999; it is January 1st of that year unless the month also parses into 1..12, then the first of that month |
| Dates.DateField | linkedin/model.py:80-89 | no date without a date element; any date read is a valid first-of-month date |
| Dates.DateXmlRoundTrip | linkedin/model.py:80-100 | a date element written with a year (and optionally a month) reads back as that first-of-month date (January 1st without a month) |
| Entries.EducationOf | linkedin/model.py:73-102 | an education record never fails; its dates are valid first-of-month dates and absent without their elements |
| Entries.Educations | linkedin/model.py:70-103 | one record per `education` descendant, in document order, each read from that element |
| Entries.PositionOf | linkedin/model.py:150-181 | a position record never fails; its dates are valid first-of-month dates and absent without their elements; no company without a `company` element |
| Entries.PositionCompany | linkedin/model.py:154-157 | the company is the `name` text of the first `company` descendant, `None` without one |
| Entries.Positions | linkedin/model.py:147-183 | one record per `position` descendant, in document order, each read from that element |
| Entries.LocationOf | linkedin/model.py:200-207 | a location never fails; no country code without a `country` element |
| Entries.LocationFields | linkedin/model.py:200-207 | the name is the text of the first `name` descendant and the country code the `code` text of the first `country` descendant |
| Entries.LocationXmlRoundTrip | linkedin/model.py:192-207 | a location written in the docstring's shape reads back with its name and code |
| Profiles.UnescapeUrl | linkedin/model.py:366-369 | a missing or empty URL is returned unchanged, any other URL unescaped |
| Profiles.LocatePerson | linkedin/model.py:279-281 | the person is the node itself when it is tagged `person`, else the first `person` descendant; there is none exactly when neither exists |
| Profiles.PersonsOf | linkedin/model.py:20-24 | at most one person per connection, each tagged `person` |
| Profiles.PersonsOfAppend | linkedin/model.py:20-24 | the connections are handled one after another: the persons of a concatenation are the concatenated persons |
| Profiles.PersonsOfAll | linkedin/model.py:20-24 | when every connection holds a person, the result lists the first person of each connection, in order |
| Profiles.PersonsOfNone | linkedin/model.py:20-24 | connections without a person contribute nothing |
| Profiles.ConnectionPersons | linkedin/model.py:18-24 | the persons are strictly smaller `person` elements, and there are none without a `connection` descendant |
| Profiles.ParseConnections | linkedin/model.py:16-26 | one entry per `connection` descendant that holds a `person`, and an empty list without `connection` elements |
| Profiles.ParseConnectionsEach | linkedin/model.py:16-26 | when every `connection` descendant holds a `person`, there is one entry per `connection` descendant in document order, entry `i` being `Profile.create` (without the debug copy) of the first `person` below the `i`-th `connection` |
| Profiles.RelationCreate | linkedin/model.py:231-244 | fails exactly when `distance` or `num-related-connections` is missing or not an integer, or when a zero count is replaced by a `total` attribute that is not an integer; otherwise holds those integers, the count replaced by `total` only when it is zero |
| Profiles.RelationConnections | linkedin/model.py:235-242 | a relation-to-viewer read without error holds the connections parsed from the first `connections` descendant in document order |
| Profiles.WithoutId | linkedin/model.py:324-325 | an entry is kept if and only if it has no `id` descendant |
| Profiles.NamesWithoutId | linkedin/model.py:323-326 | one name per entry without an `id` descendant, in order, each that entry's `name` text |
| Profiles.ItemNames | linkedin/model.py:320-335 | skills and languages are empty when the container element is absent |
| Profiles.ItemNamesReadsFirst | linkedin/model.py:320-335 | skills and languages are read from the first container descendant: the names of its item descendants without an `id` |
| Profiles.RelationOf | linkedin/model.py:302-305 | the relation-to-viewer is absent, without failing, exactly when there is no `relation-to-viewer` descendant |
| Profiles.ConnectionsOf | linkedin/model.py:307-310 | no connections without a `connections` descendant |
| Profiles.PersonLocation | linkedin/model.py:298-300 | a location exactly when a `location` descendant exists |
| Profiles.PrivateUrl | linkedin/model.py:314-317 | no private URL without a `site-standard-profile-request` descendant |
| Profiles.PersonPositions | linkedin/model.py:338-341 | no positions without a `positions` descendant; all dates valid |
| Profiles.PersonEducations | linkedin/model.py:344-347 | no educations without an `educations` descendant; all dates valid |
| Profiles.Assemble | linkedin/model.py:350-351 | a serialized copy is kept exactly in debug mode, and it is `toxml()` of the node `create` was given, not of the located person |
| Profiles.Create | linkedin/model.py:277-356 | all or nothing: no profile exactly when no person can be located or reading its relation-to-viewer raises; otherwise the complete profile |
| Profiles.BarePerson | linkedin/model.py:251-296 | a person without any optional part still gives a profile, with all fourteen text fields read by `get_child` (the two URLs through `_unescape`) and every optional part at its default |
| Profiles.NoPersonNoProfile | linkedin/model.py:279-281 | without a `person` element there is no profile |
| Profiles.RelationErrorDiscardsProfile | linkedin/model.py:302-305 | an error in the relation-to-viewer discards the whole profile |
| Profiles.RelationKeptInProfile | linkedin/model.py:279-305 | for any node, when the located person's first relation-to-viewer reads without error, the profile exists and holds that relation-to-viewer |
| Profiles.CreateViaPerson | linkedin/model.py:279-281 | without the debug copy, the profile read from any node is the profile read from its located `person` element |
| Profiles.SharedConnections | linkedin/model.py:302-310 | when the person's first `connections` descendant lies in its relation-to-viewer, the profile's connections are the relation-to-viewer's |
| ProfileExamples.MinimalDocument | linkedin/model.py:277-353 | `<person><id/><first-name/></person>` gives exactly the profile with those two fields: every other field `None`, every list empty |
| ProfileExamples.ConnectionStub | linkedin/model.py:16-26 | a connection holding a person stub yields exactly one profile, whose only field set is the stub's id |
| ProfileExamples.TotalReplacesZeroCount | linkedin/model.py:235-240 | a zero count is replaced by the `total` attribute; a non-zero count is kept |
| ProfileExamples.DocstringRelationFails | linkedin/model.py:217-233 | the docstring's relation-to-viewer, lacking `num-related-connections`, raises |
| ProfileExamples.DocstringProfileDiscarded | linkedin/model.py:302-305 | a person holding the docstring's relation-to-viewer gives no profile |
| ProfileExamples.SkillsSkipIdentified | linkedin/model.py:320-326 | of a skill with an `id` and one without, only the second's name is listed |
| ProfileExamples.SkilledProfile | linkedin/model.py:320-326 | the profile of that person lists exactly the skill without an id |
| ProfileExamples.NestedRelationShared | linkedin/model.py:287-310 | a relation-to-viewer nested in a person also supplies the profile's `distance` text and its connections |

## Left out

- XML text parsing by minidom: the model starts from an already-built tree.
- Comment, CDATA and processing-instruction nodes: the tree has only elements and text nodes, so `get_child` on an element whose first child is a comment (whose `nodeValue` is its text) is not covered. A document node is represented by an element tagged `#document`, its `nodeName`, which searches exactly like minidom's document.
- The `"*"` wildcard of `getElementsByTagName`: the parser only ever searches for literal tag names.
- Dates.MakeDate: reports every rejected date as `ValueError`, while CPython raises `OverflowError` for a year or month outside the C `int` range; both are swallowed alike by the date parse, so no outcome differs.
- `node.toxml()` (`linkedin/model.py:350-351`) and `xml.sax.saxutils.unescape` (`linkedin/model.py:368`) are library calls; they enter as the two uninterpreted functions of `Profiles.Library`.
- PyInt.ParseInt: accepts only an optional sign followed by ASCII digits; the whitespace and non-ASCII digits that Python's `int()` also accepts are rejected here.
- Python's recursion limit: on a tree nested deeper than about 1000 levels, minidom's recursive search raises `RuntimeError`, which `get_child` (`linkedin/model.py:13-14`) turns into `None` and `Profile.create` (`linkedin/model.py:354-356`) into no profile; the model has no depth bound, so `Profiles.Create`'s "exactly when" holds only for trees within that limit.
- `print "blat"` (`linkedin/model.py:355`) is console output.
- `LinkedInModel.__repr__` (`linkedin/model.py:30-36`) is presentation only.
- `Profile._get_child` (`linkedin/model.py:371-389`) is never called.
- `Education._get_child` (`linkedin/model.py:105-113`) is the same accessor as `get_child` and is modelled once, as `Dom.GetChild`.
- `RelationToViewer`'s `distance` and `num_related_connections` are typed `int`: a successful `create` always sets both.
- The dead code after the `except` block of `Profile.create` (`linkedin/model.py:357-364`) is unreachable.
