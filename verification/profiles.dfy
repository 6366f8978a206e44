/** The mutually recursive core of the parser: `Profile.create`,
    `RelationToViewer.create` and `parse_connections`. A profile may hold a
    relation-to-viewer, which holds connections, each of which is again a
    profile; every step descends strictly into the tree, so the recursion
    ends on tree size. */
module Profiles {
  import opened Wrappers
  import opened Dom
  import opened PyInt
  import opened Entries

  /** Library calls whose internals are outside the model: the XML
      unescaping of `xml.sax.saxutils.unescape` and minidom's `toxml`. */
  datatype Library = Library(unescape: string -> string, toXml: Node -> string)

  datatype RelationToViewer = RelationToViewer(
    distance: int,
    numRelatedConnections: int,
    connections: seq<Option<Profile>>)

  /** A member profile; a connection stub is the same record with most
      fields `None`. */
  datatype Profile = Profile(
    id: Option<string>,
    firstName: Option<string>,
    lastName: Option<string>,
    headline: Option<string>,
    location: Option<Location>,
    industry: Option<string>,
    distance: Option<string>,
    relationToViewer: Option<RelationToViewer>,
    summary: Option<string>,
    specialties: Option<string>,
    interests: Option<string>,
    honors: Option<string>,
    publicUrl: Option<string>,
    privateUrl: Option<string>,
    pictureUrl: Option<string>,
    currentStatus: Option<string>,
    currentShare: Option<string>,
    languages: seq<Option<string>>,
    skills: seq<Option<string>>,
    connections: seq<Option<Profile>>,
    positions: seq<Position>,
    educations: seq<Education>,
    xmlString: Option<string>)

  /** `Profile._unescape`: a missing or empty URL is returned unchanged,
      any other one is unescaped. */
  function UnescapeUrl(url: Option<string>, lib: Library): (r: Option<string>)
    ensures r.None? <==> url.None?
    ensures url == Some("") ==> r == url
    ensures url.Some? && url.value != "" ==> r == Some(lib.unescape(url.value))
  {
    match url
    case None => url
    case Some(s) => if |s| == 0 then url else Some(lib.unescape(s))
  }

  /** The `person` element a profile is read from: the node itself when it
      is one, otherwise the first `person` element below it. */
  function LocatePerson(node: Node): (r: Option<Node>)
    ensures r.Some? ==> IsTagged(r.value, "person") && Size(r.value) <= Size(node)
    ensures IsTagged(node, "person") ==> r == Some(node)
    ensures r.None? <==> !IsTagged(node, "person") && NoneTagged(node, "person")
    ensures !IsTagged(node, "person") ==>
      forall i :: FirstTaggedAt(Descendants(node), "person", i) ==> r == Some(Descendants(node)[i])
  {
    FirstByTagIsFirst(node, "person");
    if IsTagged(node, "person") then Some(node) else FirstByTag(node, "person")
  }

  /** The `person` below each `connection` element, in order, skipping the
      connections that hold none. */
  function PersonsOf(conns: seq<Node>): (r: seq<Node>)
    ensures |r| <= |conns|
    ensures forall i :: 0 <= i < |r| ==> IsTagged(r[i], "person")
  {
    if conns == [] then []
    else
      match FirstByTag(conns[0], "person")
      case None => PersonsOf(conns[1..])
      case Some(p) => [p] + PersonsOf(conns[1..])
  }

  /** The connections are handled one after the other: the persons of a
      concatenation are the persons of each part, concatenated. */
  lemma {:induction false} PersonsOfAppend(a: seq<Node>, b: seq<Node>)
    ensures PersonsOf(a + b) == PersonsOf(a) + PersonsOf(b)
    decreases |a|
  {
    if a == [] {
      assert a + b == b;
    } else {
      assert (a + b)[1..] == a[1..] + b;
      PersonsOfAppend(a[1..], b);
    }
  }

  /** When every connection holds a person, there is one person per
      connection, the first one below it, in the same order. */
  lemma {:induction false} PersonsOfAll(conns: seq<Node>)
    requires forall i :: 0 <= i < |conns| ==> FirstByTag(conns[i], "person").Some?
    ensures |PersonsOf(conns)| == |conns|
    ensures forall i :: 0 <= i < |conns| ==> PersonsOf(conns)[i] == FirstByTag(conns[i], "person").value
    decreases |conns|
  {
    if conns != [] {
      assert forall i :: 0 <= i < |conns[1..]| ==> conns[1..][i] == conns[i + 1];
      PersonsOfAll(conns[1..]);
    }
  }

  /** Connections holding no person contribute nothing. */
  lemma {:induction false} PersonsOfNone(conns: seq<Node>)
    requires forall i :: 0 <= i < |conns| ==> NoneTagged(conns[i], "person")
    ensures PersonsOf(conns) == []
    decreases |conns|
  {
    if conns != [] {
      assert forall i :: 0 <= i < |conns[1..]| ==> conns[1..][i] == conns[i + 1];
      PersonsOfNone(conns[1..]);
    }
  }

  /** Every person found lies strictly inside a tree smaller than `bound`. */
  lemma {:induction false} PersonsOfSmaller(conns: seq<Node>, bound: nat)
    requires forall k :: k in conns ==> Size(k) < bound
    ensures forall p :: p in PersonsOf(conns) ==> Size(p) < bound
    decreases |conns|
  {
    if conns != [] {
      assert conns[0] in conns;
      assert forall k :: k in conns[1..] ==> k in conns;
      PersonsOfSmaller(conns[1..], bound);
    }
  }

  /** The `person` of every `connection` element below `c` that holds one,
      in document order. */
  function ConnectionPersons(c: Node): (r: seq<Node>)
    ensures forall i :: 0 <= i < |r| ==> IsTagged(r[i], "person") && Size(r[i]) < Size(c)
    ensures NoneTagged(c, "connection") ==> r == []
  {
    var conns := ElementsByTagName(c, "connection");
    PersonsOfSmaller(conns, Size(c));
    assert conns != [] ==> !NoneTagged(c, "connection") by {
      if conns != [] {
        assert conns[0] in conns;
      }
    }
    PersonsOf(conns)
  }

  /** The `total` attribute of the first `connections` element below `n`. */
  function TotalAttribute(n: Node): (r: Option<string>)
    ensures NoneTagged(n, "connections") ==> r.None?
  {
    match FirstByTag(n, "connections")
    case None => None
    case Some(c) => Attribute(c, "total")
  }

  /** `parse_connections`: one profile (or `None` where that profile fails)
      per `connection` element below `c` that holds a `person`, in document
      order. It never fails. */
  function ParseConnections(c: Node, lib: Library): (r: seq<Option<Profile>>)
    decreases Size(c), 1
    ensures |r| == |ConnectionPersons(c)|
    ensures NoneTagged(c, "connection") ==> r == []
  {
    var persons := ConnectionPersons(c);
    seq(|persons|, i requires 0 <= i < |persons| => Create(persons[i], false, lib))
  }

  /** When every `connection` element below `c` holds a `person`, there is
      one entry per `connection` element, in document order, and entry `i`
      is `Profile.create` (without the debug copy) of the first `person`
      below the `i`-th `connection`. */
  lemma ParseConnectionsEach(c: Node, lib: Library)
    requires forall k :: k in Tagged(Descendants(c), "connection") ==> FirstByTag(k, "person").Some?
    ensures |ParseConnections(c, lib)| == |Tagged(Descendants(c), "connection")|
    ensures forall i :: 0 <= i < |Tagged(Descendants(c), "connection")| ==>
      ParseConnections(c, lib)[i] == Create(FirstByTag(Tagged(Descendants(c), "connection")[i], "person").value, false, lib)
  {
    var conns := ElementsByTagName(c, "connection");
    PersonsOfAll(conns);
  }

  /** `RelationToViewer.create`. Both integer fields are read with an
      unguarded `int()`, so a missing or non-numeric `distance` or
      `num-related-connections` raises. Only when the count reads as zero
      and a `connections` element carries a `total` attribute is that
      attribute used instead, and its own `int()` may raise too. */
  function RelationCreate(n: Node, lib: Library): (r: Result<RelationToViewer, PyError>)
    decreases Size(n), 2
    ensures r.Failure? <==>
      || ParseInt(GetChild(n, "distance")).Failure?
      || ParseInt(GetChild(n, "num-related-connections")).Failure?
      || (&& ParseInt(GetChild(n, "num-related-connections")) == Success(0)
          && TotalAttribute(n).Some?
          && ParseInt(TotalAttribute(n)).Failure?)
    ensures r.Success? ==> r.value.distance == ParseInt(GetChild(n, "distance")).value
    ensures r.Success? ==>
      var count := ParseInt(GetChild(n, "num-related-connections")).value;
      r.value.numRelatedConnections
        == if count == 0 && TotalAttribute(n).Some? then ParseInt(TotalAttribute(n)).value else count
    ensures r.Success? && NoneTagged(n, "connections") ==> r.value.connections == []
  {
    var distance :- ParseInt(GetChild(n, "distance"));
    var count :- ParseInt(GetChild(n, "num-related-connections"));
    match FirstByTag(n, "connections")
    case None => Success(RelationToViewer(distance, count, []))
    case Some(c) =>
      var total :- if !Truthy(count) && Attribute(c, "total").Some? then ParseInt(Attribute(c, "total")) else Success(count);
      Success(RelationToViewer(distance, total, ParseConnections(c, lib)))
  }

  /** `child.getElementsByTagName('id')` is not empty. */
  predicate HasId(x: Node) {
    !NoneTagged(x, "id")
  }

  /** The entries of `items` that have no `id` element below them, in order. */
  function WithoutId(items: seq<Node>): (r: seq<Node>)
    ensures forall x :: x in r <==> x in items && !HasId(x)
    ensures |r| <= |items|
  {
    if items == [] then []
    else (if HasId(items[0]) then [] else [items[0]]) + WithoutId(items[1..])
  }

  /** The skill/language loop: the `name` text of every entry without an
      `id` element, in order (`None` where the entry has no name text). */
  function NamesWithoutId(items: seq<Node>): (r: seq<Option<string>>)
    ensures |r| == |WithoutId(items)|
    ensures forall i :: 0 <= i < |r| ==> r[i] == GetChild(WithoutId(items)[i], "name")
  {
    if items == [] then []
    else
      var rest := NamesWithoutId(items[1..]);
      if FirstByTag(items[0], "id").Some? then
        assert WithoutId(items) == WithoutId(items[1..]);
        rest
      else
        assert WithoutId(items) == [items[0]] + WithoutId(items[1..]);
        [GetChild(items[0], "name")] + rest
  }

  /** Skills (`skills`/`skill`) or languages (`languages`/`language`) of a
      person: the names read from the first container element, or nothing
      when there is no container. */
  function ItemNames(person: Node, container: string, item: string): (r: seq<Option<string>>)
    ensures NoneTagged(person, container) ==> r == []
  {
    match FirstByTag(person, container)
    case None => []
    case Some(c) => NamesWithoutId(ElementsByTagName(c, item))
  }

  /** The items are read from the first container element in document
      order: the names of its `item` descendants without an `id`. */
  lemma ItemNamesReadsFirst(person: Node, container: string, item: string)
    ensures forall i :: FirstTaggedAt(Descendants(person), container, i) ==>
      ItemNames(person, container, item)
        == NamesWithoutId(Tagged(Descendants(Descendants(person)[i]), item))
  {
    FirstByTagIsFirst(person, container);
  }

  /** The relation-to-viewer of a person: absent when there is no
      `relation-to-viewer` element, else the outcome of reading the first one. */
  function RelationOf(person: Node, lib: Library): (r: Result<Option<RelationToViewer>, PyError>)
    decreases Size(person), 3
    ensures NoneTagged(person, "relation-to-viewer") ==> r == Success(None)
    ensures r.Success? && r.value.None? ==> NoneTagged(person, "relation-to-viewer")
  {
    match FirstByTag(person, "relation-to-viewer")
    case None => Success(None)
    case Some(e) =>
      var rel :- RelationCreate(e, lib);
      Success(Some(rel))
  }

  /** The connections of a person: those of the first `connections`
      element below it, which may well be the one nested in its
      relation-to-viewer, or none when there is no such element. */
  function ConnectionsOf(person: Node, lib: Library): (r: seq<Option<Profile>>)
    decreases Size(person), 3
    ensures NoneTagged(person, "connections") ==> r == []
  {
    match FirstByTag(person, "connections")
    case None => []
    case Some(c) => ParseConnections(c, lib)
  }

  /** The location of a person, read from its first `location` element. */
  function PersonLocation(person: Node): (r: Option<Location>)
    ensures r.None? <==> NoneTagged(person, "location")
  {
    match FirstByTag(person, "location")
    case None => None
    case Some(l) => Some(LocationOf(l))
  }

  /** The private URL: the `url` text below the first
      `site-standard-profile-request` element. */
  function PrivateUrl(person: Node): (r: Option<string>)
    ensures NoneTagged(person, "site-standard-profile-request") ==> r.None?
  {
    match FirstByTag(person, "site-standard-profile-request")
    case None => None
    case Some(p) => GetChild(p, "url")
  }

  /** The positions of a person, read from its first `positions` element. */
  function PersonPositions(person: Node): (r: seq<Position>)
    ensures NoneTagged(person, "positions") ==> r == []
    ensures forall i :: 0 <= i < |r| ==> DatesValid(r[i].startDate, r[i].endDate)
  {
    match FirstByTag(person, "positions")
    case None => []
    case Some(p) => Positions(p)
  }

  /** The educations of a person, read from its first `educations` element. */
  function PersonEducations(person: Node): (r: seq<Education>)
    ensures NoneTagged(person, "educations") ==> r == []
    ensures forall i :: 0 <= i < |r| ==> DatesValid(r[i].startDate, r[i].endDate)
  {
    match FirstByTag(person, "educations")
    case None => []
    case Some(e) => Educations(e)
  }

  /** The profile built from a located `person` element once the steps
      that could raise have succeeded: every remaining field is read with
      the never-failing accessors. */
  function Assemble(node: Node, person: Node, relation: Option<RelationToViewer>,
                    connections: seq<Option<Profile>>, debug: bool, lib: Library): (r: Profile)
    ensures r.xmlString.Some? <==> debug
    ensures debug ==> r.xmlString == Some(lib.toXml(node))
  {
    Profile(
      id := GetChild(person, "id"),
      firstName := GetChild(person, "first-name"),
      lastName := GetChild(person, "last-name"),
      headline := GetChild(person, "headline"),
      location := PersonLocation(person),
      industry := GetChild(person, "industry"),
      distance := GetChild(person, "distance"),
      relationToViewer := relation,
      summary := GetChild(person, "summary"),
      specialties := GetChild(person, "specialties"),
      interests := GetChild(person, "interests"),
      honors := GetChild(person, "honors"),
      publicUrl := UnescapeUrl(GetChild(person, "public-profile-url"), lib),
      privateUrl := PrivateUrl(person),
      pictureUrl := UnescapeUrl(GetChild(person, "picture-url"), lib),
      currentStatus := GetChild(person, "current-status"),
      currentShare := GetChild(person, "current-share"),
      languages := ItemNames(person, "languages", "language"),
      skills := ItemNames(person, "skills", "skill"),
      connections := connections,
      positions := PersonPositions(person),
      educations := PersonEducations(person),
      xmlString := if debug then Some(lib.toXml(node)) else None)
  }

  /** `Profile.create`: all or nothing. It yields `None` when no `person`
      element can be located or when reading the relation-to-viewer raises;
      no other step can raise, so otherwise a complete profile results. */
  function Create(node: Node, debug: bool, lib: Library): (r: Option<Profile>)
    decreases Size(node), 4
    ensures r.None? <==> LocatePerson(node).None? || RelationOf(LocatePerson(node).value, lib).Failure?
    ensures r.Some? ==> r.value == Assemble(node, LocatePerson(node).value, RelationOf(LocatePerson(node).value, lib).value,
                                            ConnectionsOf(LocatePerson(node).value, lib), debug, lib)
  {
    match LocatePerson(node)
    case None => None
    case Some(person) =>
      match RelationOf(person, lib)
      case Failure(_) => None
      case Success(relation) => Some(Assemble(node, person, relation, ConnectionsOf(person, lib), debug, lib))
  }

  /** None of the optional parts of a profile occurs below `p`. */
  predicate NoContainers(p: Node) {
    && NoneTagged(p, "relation-to-viewer")
    && NoneTagged(p, "connections")
    && NoneTagged(p, "location")
    && NoneTagged(p, "site-standard-profile-request")
    && NoneTagged(p, "languages")
    && NoneTagged(p, "skills")
    && NoneTagged(p, "positions")
    && NoneTagged(p, "educations")
  }

  /** A `person` element with none of the optional parts still gives a
      profile: its text fields are read as usual and every optional part
      keeps the default the constructor gives it (`None` or an empty list). */
  lemma BarePerson(p: Node, debug: bool, lib: Library)
    requires IsTagged(p, "person") && NoContainers(p)
    ensures var r := Create(p, debug, lib);
      && r.Some?
      && r.value.id == GetChild(p, "id")
      && r.value.firstName == GetChild(p, "first-name")
      && r.value.lastName == GetChild(p, "last-name")
      && r.value.headline == GetChild(p, "headline")
      && r.value.industry == GetChild(p, "industry")
      && r.value.distance == GetChild(p, "distance")
      && r.value.summary == GetChild(p, "summary")
      && r.value.specialties == GetChild(p, "specialties")
      && r.value.interests == GetChild(p, "interests")
      && r.value.honors == GetChild(p, "honors")
      && r.value.currentStatus == GetChild(p, "current-status")
      && r.value.currentShare == GetChild(p, "current-share")
      && r.value.publicUrl == UnescapeUrl(GetChild(p, "public-profile-url"), lib)
      && r.value.pictureUrl == UnescapeUrl(GetChild(p, "picture-url"), lib)
      && r.value.location.None? && r.value.privateUrl.None?
      && r.value.relationToViewer.None?
      && r.value.languages == [] && r.value.skills == []
      && r.value.connections == []
      && r.value.positions == [] && r.value.educations == []
      && (r.value.xmlString.Some? <==> debug)
  {
    assert LocatePerson(p) == Some(p);
    assert RelationOf(p, lib) == Success(None);
  }

  /** Any error raised while reading the first `relation-to-viewer` of the
      located person (a missing or non-numeric `distance` or
      `num-related-connections`, a non-numeric `total`) makes the whole
      profile `None`. */
  lemma RelationErrorDiscardsProfile(node: Node, debug: bool, lib: Library, e: Node)
    requires LocatePerson(node).Some?
    requires FirstByTag(LocatePerson(node).value, "relation-to-viewer") == Some(e)
    requires RelationCreate(e, lib).Failure?
    ensures Create(node, debug, lib).None?
  {
  }

  /** When the located person's first `relation-to-viewer` reads without
      error, the profile exists and holds that relation-to-viewer. */
  lemma RelationKeptInProfile(node: Node, debug: bool, lib: Library, e: Node)
    requires LocatePerson(node).Some?
    requires FirstByTag(LocatePerson(node).value, "relation-to-viewer") == Some(e)
    requires RelationCreate(e, lib).Success?
    ensures Create(node, debug, lib).Some?
    ensures Create(node, debug, lib).value.relationToViewer == Some(RelationCreate(e, lib).value)
  {
  }

  /** A profile read from any node is the profile read from its located
      `person` element (apart from the debug copy, which serializes the
      node given). */
  lemma CreateViaPerson(node: Node, lib: Library)
    requires LocatePerson(node).Some?
    ensures Create(node, false, lib) == Create(LocatePerson(node).value, false, lib)
  {
    var p := LocatePerson(node).value;
    assert LocatePerson(p) == Some(p);
  }

  /** Without any `person` element, neither the node itself nor one below
      it, there is no profile. */
  lemma NoPersonNoProfile(node: Node, debug: bool, lib: Library)
    requires !IsTagged(node, "person") && NoneTagged(node, "person")
    ensures Create(node, debug, lib).None?
  {
  }

  /** A relation-to-viewer read without error holds the connections parsed
      from the first `connections` element below it in document order. */
  lemma RelationConnections(n: Node, lib: Library)
    requires RelationCreate(n, lib).Success?
    ensures forall i :: FirstTaggedAt(Descendants(n), "connections", i) ==>
      RelationCreate(n, lib).value.connections == ParseConnections(Descendants(n)[i], lib)
  {
    FirstByTagIsFirst(n, "connections");
  }

  /** The relation-to-viewer and the connections of a profile read from a
      `person` element. */
  lemma CreateParts(p: Node, debug: bool, lib: Library)
    requires IsTagged(p, "person") && Create(p, debug, lib).Some?
    ensures RelationOf(p, lib).Success?
    ensures Create(p, debug, lib).value.relationToViewer == RelationOf(p, lib).value
    ensures Create(p, debug, lib).value.connections == ConnectionsOf(p, lib)
    ensures Create(p, debug, lib).value.distance == GetChild(p, "distance")
    ensures Create(p, debug, lib).value.skills == ItemNames(p, "skills", "skill")
    ensures Create(p, debug, lib).value.languages == ItemNames(p, "languages", "language")
  {
    assert LocatePerson(p) == Some(p);
  }

  /** When the first `connections` element below a person is the one inside
      its relation-to-viewer, the profile's connections and the
      relation-to-viewer's connections are the same list, parsed twice. */
  lemma SharedConnections(p: Node, debug: bool, lib: Library, e: Node)
    requires IsTagged(p, "person")
    requires FirstByTag(p, "relation-to-viewer") == Some(e)
    requires FirstByTag(e, "connections").Some?
    requires FirstByTag(p, "connections") == FirstByTag(e, "connections")
    requires Create(p, debug, lib).Some?
    ensures Create(p, debug, lib).value.relationToViewer.Some?
    ensures Create(p, debug, lib).value.connections
            == Create(p, debug, lib).value.relationToViewer.value.connections
  {
    CreateParts(p, debug, lib);
    assert RelationCreate(e, lib).Success?;
    var c := FirstByTag(e, "connections").value;
    FirstByTagIsFirst(e, "connections");
    FirstTaggedExists(Descendants(e), "connections", c);
    RelationConnections(e, lib);
    assert ConnectionsOf(p, lib) == ParseConnections(c, lib);
  }
}
