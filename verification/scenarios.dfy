/** Small documents of the shapes the parser reads, with their text
    contents left free, and what the model makes of them. */
module ProfileExamples {
  import opened Wrappers
  import opened Dom
  import opened PyInt
  import opened Profiles

  /** `<tag>text</tag>` */
  function Leaf(tag: string, text: string): Node {
    Element(tag, map[], [Text(text)])
  }

  /** `<tag>children</tag>` without attributes. */
  function El(tag: string, children: seq<Node>): Node {
    Element(tag, map[], children)
  }

  /** Below `n` only the tags in `tags` occur, and none of them names an
      optional part of a profile. */
  lemma AbsentContainers(n: Node, tags: set<string>)
    requires TagsWithin(n, tags)
    requires tags <= {"id", "first-name", "last-name", "headline", "distance", "name"}
    ensures NoContainers(n)
  {
    AbsentTag(n, tags, "relation-to-viewer");
    AbsentTag(n, tags, "connections");
    AbsentTag(n, tags, "location");
    AbsentTag(n, tags, "site-standard-profile-request");
    AbsentTag(n, tags, "languages");
    AbsentTag(n, tags, "skills");
    AbsentTag(n, tags, "positions");
    AbsentTag(n, tags, "educations");
  }

  /** The profile that carries an `id` and a `first-name` and nothing
      else: every other field `None`, every list empty, no debug copy. */
  function IdentityProfile(id: Option<string>, first: Option<string>): Profile {
    Profile(
      id := id, firstName := first, lastName := None, headline := None,
      location := None, industry := None, distance := None,
      relationToViewer := None, summary := None, specialties := None,
      interests := None, honors := None, publicUrl := None,
      privateUrl := None, pictureUrl := None, currentStatus := None,
      currentShare := None, languages := [], skills := [],
      connections := [], positions := [], educations := [],
      xmlString := None)
  }

  /** Below `p` at most `id` and `first-name` occur, so every other text
      field reads as `None`. */
  lemma OtherTextsAbsent(p: Node, tags: set<string>)
    requires TagsWithin(p, tags) && tags <= {"id", "first-name"}
    ensures GetChild(p, "last-name").None? && GetChild(p, "headline").None?
    ensures GetChild(p, "industry").None? && GetChild(p, "distance").None?
    ensures GetChild(p, "summary").None? && GetChild(p, "specialties").None?
    ensures GetChild(p, "interests").None? && GetChild(p, "honors").None?
    ensures GetChild(p, "public-profile-url").None? && GetChild(p, "picture-url").None?
    ensures GetChild(p, "current-status").None? && GetChild(p, "current-share").None?
  {
    AbsentTag(p, tags, "last-name");
    AbsentTag(p, tags, "headline");
    AbsentTag(p, tags, "industry");
    AbsentTag(p, tags, "distance");
    AbsentTag(p, tags, "summary");
    AbsentTag(p, tags, "specialties");
    AbsentTag(p, tags, "interests");
    AbsentTag(p, tags, "honors");
    AbsentTag(p, tags, "public-profile-url");
    AbsentTag(p, tags, "picture-url");
    AbsentTag(p, tags, "current-status");
    AbsentTag(p, tags, "current-share");
  }

  /** A `person` element holding at most `id` and `first-name` elements
      gives exactly the profile of those two fields. */
  lemma IdentityOnly(p: Node, tags: set<string>, lib: Library)
    requires IsTagged(p, "person")
    requires TagsWithin(p, tags) && tags <= {"id", "first-name"}
    ensures Create(p, false, lib) == Some(IdentityProfile(GetChild(p, "id"), GetChild(p, "first-name")))
  {
    OtherTextsAbsent(p, tags);
    AbsentContainers(p, tags);
    assert LocatePerson(p) == Some(p);
    assert RelationOf(p, lib) == Success(None);
  }

  /** `<person><id>id</id><first-name>first</first-name></person>` */
  function MinimalPerson(id: string, first: string): Node {
    El("person", [Leaf("id", id), Leaf("first-name", first)])
  }

  lemma MinimalPersonNodes(id: string, first: string)
    ensures Descendants(MinimalPerson(id, first))
            == [Leaf("id", id), Text(id), Leaf("first-name", first), Text(first)]
  {
    var idLeaf := Leaf("id", id);
    var nameLeaf := Leaf("first-name", first);
    LeafDescendants("id", id);
    LeafDescendants("first-name", first);
    DescendantsCons("person", map[], idLeaf, [nameLeaf]);
    DescendantsCons("person", map[], nameLeaf, []);
    assert [idLeaf] + [nameLeaf] == [idLeaf, nameLeaf];
    assert [nameLeaf] + [] == [nameLeaf];
  }

  lemma MinimalPersonTags(id: string, first: string)
    ensures TagsWithin(MinimalPerson(id, first), {"id", "first-name"})
  {
    MinimalPersonNodes(id, first);
  }

  lemma MinimalPersonFields(id: string, first: string)
    ensures GetChild(MinimalPerson(id, first), "id") == Some(id)
    ensures GetChild(MinimalPerson(id, first), "first-name") == Some(first)
  {
    var doc := MinimalPerson(id, first);
    MinimalPersonNodes(id, first);
    assert FirstTaggedAt(Descendants(doc), "id", 0);
    assert FirstTaggedAt(Descendants(doc), "first-name", 2);
    GetChildReadsFirst(doc, "id");
    GetChildReadsFirst(doc, "first-name");
  }

  /** The minimal document gives a profile with exactly the two fields it
      carries; every other field is absent and every list empty. */
  lemma MinimalDocument(id: string, first: string, lib: Library)
    ensures Create(MinimalPerson(id, first), false, lib) == Some(IdentityProfile(Some(id), Some(first)))
  {
    MinimalPersonFields(id, first);
    MinimalPersonTags(id, first);
    IdentityOnly(MinimalPerson(id, first), {"id", "first-name"}, lib);
  }

  /** `<person><id>id</id></person>`, the stub a connection carries. */
  function Stub(id: string): Node {
    El("person", [Leaf("id", id)])
  }

  /** `<connections><connection><person><id>id</id></person></connection></connections>` */
  function StubConnections(id: string): Node {
    El("connections", [El("connection", [Stub(id)])])
  }

  lemma StubFields(id: string)
    ensures Descendants(Stub(id)) == [Leaf("id", id), Text(id)]
    ensures GetChild(Stub(id), "id") == Some(id)
    ensures GetChild(Stub(id), "first-name").None?
    ensures TagsWithin(Stub(id), {"id"})
    ensures NoContainers(Stub(id))
  {
    LeafDescendants("id", id);
    DescendantsCons("person", map[], Leaf("id", id), []);
    assert [Leaf("id", id)] + [] == [Leaf("id", id)];
    assert FirstTaggedAt(Descendants(Stub(id)), "id", 0);
    GetChildReadsFirst(Stub(id), "id");
    assert TagsWithin(Stub(id), {"id"});
    AbsentTag(Stub(id), {"id"}, "first-name");
    AbsentContainers(Stub(id), {"id"});
  }

  /** The one `connection` element is the only one below the stub's
      connections element. */
  lemma StubConnectionElements(id: string)
    ensures ElementsByTagName(StubConnections(id), "connection") == [El("connection", [Stub(id)])]
  {
    var stub := Stub(id);
    var conn := El("connection", [stub]);
    StubFields(id);
    DescendantsCons("connection", map[], stub, []);
    assert [stub] + [] == [stub];
    assert Descendants(conn) == [stub, Leaf("id", id), Text(id)];
    AbsentTag(conn, {"person", "id"}, "connection");
    NothingTagged(conn, "connection");
    NothingBelowLeaf(El("connections", []), "connection");
    ElementsByTagNameCons("connections", map[], conn, [], "connection");
    assert [conn] + [] == [conn];
  }

  /** The stub is the only person found below the connections element. */
  lemma StubPersons(id: string)
    ensures ConnectionPersons(StubConnections(id)) == [Stub(id)]
  {
    var stub := Stub(id);
    var conn := El("connection", [stub]);
    StubConnectionElements(id);
    FirstByTagCons("connection", map[], stub, [], "person");
    assert [stub] + [] == [stub];
    assert FirstByTag(conn, "person") == Some(stub);
    assert PersonsOf([conn]) == [stub] + PersonsOf([]);
  }

  /** A connection stub is parsed into a profile holding only its `id`. */
  lemma ConnectionStub(id: string, lib: Library)
    ensures ParseConnections(StubConnections(id), lib) == [Some(IdentityProfile(Some(id), None))]
  {
    StubPersons(id);
    StubFields(id);
    IdentityOnly(Stub(id), {"id"}, lib);
  }

  /** A relation-to-viewer with both counts and an empty `connections`
      element carrying a `total` attribute. */
  function CountedRelation(distance: int, count: int, total: int): Node {
    El("relation-to-viewer", [
      Leaf("distance", IntToString(distance)),
      Leaf("num-related-connections", IntToString(count)),
      Element("connections", map["total" := IntToString(total)], [])])
  }

  lemma CountedRelationNodes(distance: int, count: int, total: int)
    ensures Descendants(CountedRelation(distance, count, total))
            == [Leaf("distance", IntToString(distance)), Text(IntToString(distance)),
                Leaf("num-related-connections", IntToString(count)), Text(IntToString(count)),
                Element("connections", map["total" := IntToString(total)], [])]
  {
    var dLeaf := Leaf("distance", IntToString(distance));
    var kLeaf := Leaf("num-related-connections", IntToString(count));
    var conns := Element("connections", map["total" := IntToString(total)], []);
    LeafDescendants("distance", IntToString(distance));
    LeafDescendants("num-related-connections", IntToString(count));
    DescendantsCons("relation-to-viewer", map[], dLeaf, [kLeaf, conns]);
    DescendantsCons("relation-to-viewer", map[], kLeaf, [conns]);
    DescendantsCons("relation-to-viewer", map[], conns, []);
    assert [dLeaf] + [kLeaf, conns] == [dLeaf, kLeaf, conns];
    assert [kLeaf] + [conns] == [kLeaf, conns];
    assert [conns] + [] == [conns];
  }

  lemma CountedRelationReads(distance: int, count: int, total: int)
    ensures GetChild(CountedRelation(distance, count, total), "distance") == Some(IntToString(distance))
    ensures GetChild(CountedRelation(distance, count, total), "num-related-connections") == Some(IntToString(count))
    ensures FirstByTag(CountedRelation(distance, count, total), "connections")
            == Some(Element("connections", map["total" := IntToString(total)], []))
  {
    var n := CountedRelation(distance, count, total);
    CountedRelationNodes(distance, count, total);
    assert FirstTaggedAt(Descendants(n), "distance", 0);
    assert FirstTaggedAt(Descendants(n), "num-related-connections", 2);
    assert FirstTaggedAt(Descendants(n), "connections", 4);
    GetChildReadsFirst(n, "distance");
    GetChildReadsFirst(n, "num-related-connections");
    FirstByTagIsFirst(n, "connections");
  }

  /** A count of zero is replaced by the `total` attribute of the
      connections element; any other count is kept. */
  lemma TotalReplacesZeroCount(distance: int, count: int, total: int, lib: Library)
    ensures RelationCreate(CountedRelation(distance, count, total), lib)
            == Success(RelationToViewer(distance, if count == 0 then total else count, []))
  {
    var n := CountedRelation(distance, count, total);
    var conns := Element("connections", map["total" := IntToString(total)], []);
    CountedRelationReads(distance, count, total);
    ParseIntRoundTrip(distance);
    ParseIntRoundTrip(count);
    ParseIntRoundTrip(total);
    assert TotalAttribute(n) == Some(IntToString(total));
    assert NoneTagged(conns, "connection");
    assert RelationCreate(n, lib).value.connections == ParseConnections(FirstByTag(n, "connections").value, lib);
  }

  /** The relation-to-viewer of the parser's own docstring, whose
      `distance` is `distance` and whose one connection holds the person
      `<id>id</id><first-name>first</first-name><last-name>last</last-name>`;
      it has no `num-related-connections` element. */
  function DocstringRelation(distance: int, id: string, first: string, last: string): Node {
    El("relation-to-viewer", [
      Leaf("distance", IntToString(distance)),
      Element("connections", map["total" := "36", "count" := "10", "start" := "0"], [
        El("connection", [
          El("person", [Leaf("id", id), Leaf("first-name", first), Leaf("last-name", last)])])])])
  }

  lemma DocstringRelationTags(distance: int, id: string, first: string, last: string)
    ensures TagsWithin(DocstringRelation(distance, id, first, last),
                       {"distance", "connections", "connection", "person", "id", "first-name", "last-name"})
  {
    var tags := {"distance", "connections", "connection", "person", "id", "first-name", "last-name"};
    var idLeaf := Leaf("id", id);
    var fLeaf := Leaf("first-name", first);
    var lLeaf := Leaf("last-name", last);
    var person := El("person", [idLeaf, fLeaf, lLeaf]);
    var conn := El("connection", [person]);
    var conns := Element("connections", map["total" := "36", "count" := "10", "start" := "0"], [conn]);
    var dLeaf := Leaf("distance", IntToString(distance));
    LeafTagsWithin(idLeaf, tags);
    LeafTagsWithin(fLeaf, tags);
    LeafTagsWithin(lLeaf, tags);
    LeafTagsWithin(dLeaf, tags);
    LeafTagsWithin(El("person", []), tags);
    TagsWithinCons("person", map[], lLeaf, [], tags);
    assert [lLeaf] + [] == [lLeaf];
    TagsWithinCons("person", map[], fLeaf, [lLeaf], tags);
    assert [fLeaf] + [lLeaf] == [fLeaf, lLeaf];
    TagsWithinCons("person", map[], idLeaf, [fLeaf, lLeaf], tags);
    assert [idLeaf] + [fLeaf, lLeaf] == person.children;
    LeafTagsWithin(El("connection", []), tags);
    TagsWithinCons("connection", map[], person, [], tags);
    assert [person] + [] == [person];
    LeafTagsWithin(Element(conns.tag, conns.attrs, []), tags);
    TagsWithinCons(conns.tag, conns.attrs, conn, [], tags);
    assert [conn] + [] == [conn];
    LeafTagsWithin(El("relation-to-viewer", []), tags);
    TagsWithinCons("relation-to-viewer", map[], conns, [], tags);
    assert [conns] + [] == [conns];
    TagsWithinCons("relation-to-viewer", map[], dLeaf, [conns], tags);
    assert [dLeaf] + [conns] == [dLeaf, conns];
  }

  /** Read as written, the docstring's relation-to-viewer raises: its
      missing `num-related-connections` text reaches `int()` as `None`. */
  lemma DocstringRelationFails(distance: int, id: string, first: string, last: string, lib: Library)
    ensures RelationCreate(DocstringRelation(distance, id, first, last), lib).Failure?
  {
    var n := DocstringRelation(distance, id, first, last);
    DocstringRelationTags(distance, id, first, last);
    AbsentTag(n, {"distance", "connections", "connection", "person", "id", "first-name", "last-name"},
              "num-related-connections");
    assert ParseInt(GetChild(n, "num-related-connections")) == Failure(TypeError);
  }

  /** The search below an element with two children. */
  lemma FirstOfTwo(tag: string, a: Node, b: Node, t: string)
    ensures FirstByTag(El(tag, [a, b]), t)
            == if IsTagged(a, t) then Some(a)
               else if FirstByTag(a, t).Some? then FirstByTag(a, t)
               else if IsTagged(b, t) then Some(b)
               else FirstByTag(b, t)
  {
    NothingBelowLeaf(El(tag, []), t);
    FirstByTagCons(tag, map[], b, [], t);
    assert [b] + [] == [b];
    FirstByTagCons(tag, map[], a, [b], t);
    assert [a] + [b] == [a, b];
  }

  /** The search below an element with three children. */
  lemma FirstOfThree(tag: string, a: Node, b: Node, c: Node, t: string)
    ensures FirstByTag(El(tag, [a, b, c]), t)
            == if IsTagged(a, t) then Some(a)
               else if FirstByTag(a, t).Some? then FirstByTag(a, t)
               else if IsTagged(b, t) then Some(b)
               else if FirstByTag(b, t).Some? then FirstByTag(b, t)
               else if IsTagged(c, t) then Some(c)
               else FirstByTag(c, t)
  {
    FirstOfTwo(tag, b, c, t);
    FirstByTagCons(tag, map[], a, [b, c], t);
    assert [a] + [b, c] == [a, b, c];
  }

  /** In `<person><id>pid</id>rel</person>` the relation-to-viewer found is `rel`. */
  lemma RelationAfterId(pid: string, rel: Node)
    requires IsTagged(rel, "relation-to-viewer")
    ensures FirstByTag(El("person", [Leaf("id", pid), rel]), "relation-to-viewer") == Some(rel)
  {
    NothingBelowLeaf(Leaf("id", pid), "relation-to-viewer");
    FirstOfTwo("person", Leaf("id", pid), rel, "relation-to-viewer");
  }

  /** So a person holding that relation-to-viewer gives no profile at all. */
  lemma DocstringProfileDiscarded(pid: string, distance: int, id: string, first: string, last: string, lib: Library)
    ensures Create(El("person", [Leaf("id", pid), DocstringRelation(distance, id, first, last)]), false, lib).None?
  {
    var rel := DocstringRelation(distance, id, first, last);
    var p := El("person", [Leaf("id", pid), rel]);
    RelationAfterId(pid, rel);
    DocstringRelationFails(distance, id, first, last, lib);
    RelationErrorDiscardsProfile(p, false, lib, rel);
  }

  /** `<skill><id>sid</id><name>n1</name></skill>`, a skill with an id. */
  function IdentifiedSkill(sid: string, name: string): Node {
    El("skill", [Leaf("id", sid), Leaf("name", name)])
  }

  /** `<skill><name>name</name></skill>`, a skill without an id. */
  function PlainSkill(name: string): Node {
    El("skill", [Leaf("name", name)])
  }

  function SkillsElement(sid: string, n1: string, n2: string): Node {
    El("skills", [IdentifiedSkill(sid, n1), PlainSkill(n2)])
  }

  /** A person whose skills are one skill with an id and one without. */
  function SkilledPerson(sid: string, n1: string, n2: string): Node {
    El("person", [SkillsElement(sid, n1, n2)])
  }

  lemma SkillTags(sid: string, n1: string, n2: string)
    ensures TagsWithin(IdentifiedSkill(sid, n1), {"id", "name"})
    ensures TagsWithin(PlainSkill(n2), {"name"})
    ensures TagsWithin(PlainSkill(n2), {"id", "name"})
  {
    var tags := {"id", "name"};
    LeafTagsWithin(Leaf("id", sid), tags);
    LeafTagsWithin(Leaf("name", n1), tags);
    LeafTagsWithin(El("skill", []), tags);
    TagsWithinCons("skill", map[], Leaf("name", n1), [], tags);
    assert [Leaf("name", n1)] + [] == [Leaf("name", n1)];
    TagsWithinCons("skill", map[], Leaf("id", sid), [Leaf("name", n1)], tags);
    assert [Leaf("id", sid)] + [Leaf("name", n1)] == IdentifiedSkill(sid, n1).children;
    LeafTagsWithin(Leaf("name", n2), {"name"});
    LeafTagsWithin(El("skill", []), {"name"});
    TagsWithinCons("skill", map[], Leaf("name", n2), [], {"name"});
    assert [Leaf("name", n2)] + [] == [Leaf("name", n2)];
    LeafTagsWithin(Leaf("name", n2), tags);
    TagsWithinCons("skill", map[], Leaf("name", n2), [], tags);
  }

  /** A lone element with no match below it is the only match of its own tag. */
  lemma OnlyChildFound(tag: string, c: Node, t: string)
    requires IsTagged(c, t) && NoneTagged(c, t)
    ensures ElementsByTagName(El(tag, [c]), t) == [c]
  {
    NothingTagged(c, t);
    NothingBelowLeaf(El(tag, []), t);
    ElementsByTagNameCons(tag, map[], c, [], t);
    assert [c] + [] == [c];
  }

  /** Two sibling elements with no match below them are the matches of their tag, in order. */
  lemma TwoChildrenFound(tag: string, a: Node, b: Node, t: string)
    requires IsTagged(a, t) && NoneTagged(a, t) && IsTagged(b, t) && NoneTagged(b, t)
    ensures ElementsByTagName(El(tag, [a, b]), t) == [a, b]
  {
    NothingTagged(a, t);
    OnlyChildFound(tag, b, t);
    ElementsByTagNameCons(tag, map[], a, [b], t);
    assert [a] + [b] == [a, b];
  }

  /** Both skills are found, in document order. */
  lemma SkillElements(sid: string, n1: string, n2: string)
    ensures ElementsByTagName(SkillsElement(sid, n1, n2), "skill") == [IdentifiedSkill(sid, n1), PlainSkill(n2)]
  {
    SkillTags(sid, n1, n2);
    AbsentTag(IdentifiedSkill(sid, n1), {"id", "name"}, "skill");
    AbsentTag(PlainSkill(n2), {"name"}, "skill");
    TwoChildrenFound("skills", IdentifiedSkill(sid, n1), PlainSkill(n2), "skill");
  }

  /** The first skill has an `id` element, the second has none and is named `n2`. */
  lemma SkillIds(sid: string, n1: string, n2: string)
    ensures HasId(IdentifiedSkill(sid, n1))
    ensures !HasId(PlainSkill(n2))
    ensures GetChild(PlainSkill(n2), "name") == Some(n2)
  {
    var s1 := IdentifiedSkill(sid, n1);
    var s2 := PlainSkill(n2);
    FirstByTagCons("skill", map[], Leaf("id", sid), [Leaf("name", n1)], "id");
    assert [Leaf("id", sid)] + [Leaf("name", n1)] == s1.children;
    assert FirstByTag(s1, "id").Some?;
    SkillTags(sid, n1, n2);
    AbsentTag(s2, {"name"}, "id");
    FirstByTagCons("skill", map[], Leaf("name", n2), [], "name");
    assert [Leaf("name", n2)] + [] == s2.children;
  }

  /** Skills that carry an `id` element are skipped: only the second
      skill's name is kept. */
  lemma SkillsSkipIdentified(sid: string, n1: string, n2: string)
    ensures ItemNames(SkilledPerson(sid, n1, n2), "skills", "skill") == [Some(n2)]
  {
    var s1 := IdentifiedSkill(sid, n1);
    var s2 := PlainSkill(n2);
    var sk := SkillsElement(sid, n1, n2);
    FirstByTagCons("person", map[], sk, [], "skills");
    assert [sk] + [] == [sk];
    assert FirstByTag(SkilledPerson(sid, n1, n2), "skills") == Some(sk);
    SkillElements(sid, n1, n2);
    SkillIds(sid, n1, n2);
    assert [s1, s2][1..] == [s2];
    assert NamesWithoutId([s1, s2]) == NamesWithoutId([s2]);
    assert NamesWithoutId([s2]) == [GetChild(s2, "name")] + NamesWithoutId([]);
  }

  /** The profile of that person lists the one skill without an id. */
  lemma SkilledProfile(sid: string, n1: string, n2: string, lib: Library)
    ensures var r := Create(SkilledPerson(sid, n1, n2), false, lib);
      r.Some? && r.value.skills == [Some(n2)] && r.value.relationToViewer.None?
  {
    var p := SkilledPerson(sid, n1, n2);
    var tags := {"skills", "skill", "id", "name"};
    SkillTags(sid, n1, n2);
    TagsWithinCons("skills", map[], PlainSkill(n2), [], tags);
    LeafTagsWithin(El("skills", []), tags);
    assert [PlainSkill(n2)] + [] == [PlainSkill(n2)];
    TagsWithinCons("skills", map[], IdentifiedSkill(sid, n1), [PlainSkill(n2)], tags);
    assert [IdentifiedSkill(sid, n1)] + [PlainSkill(n2)] == SkillsElement(sid, n1, n2).children;
    LeafTagsWithin(El("person", []), tags);
    TagsWithinCons("person", map[], SkillsElement(sid, n1, n2), [], tags);
    assert [SkillsElement(sid, n1, n2)] + [] == p.children;
    AbsentTag(p, tags, "relation-to-viewer");
    assert LocatePerson(p) == Some(p);
    assert RelationOf(p, lib) == Success(None);
    CreateParts(p, false, lib);
    SkillsSkipIdentified(sid, n1, n2);
  }

  /** A relation-to-viewer with both counts whose connections element
      holds one connection stub. */
  function ConnectedRelation(distance: int, count: int, id: string): Node {
    El("relation-to-viewer", [
      Leaf("distance", IntToString(distance)),
      Leaf("num-related-connections", IntToString(count)),
      StubConnections(id)])
  }

  /** A person whose only child is that relation-to-viewer: it has no
      `distance` and no `connections` of its own. */
  function NestedPerson(distance: int, count: int, id: string): Node {
    El("person", [ConnectedRelation(distance, count, id)])
  }

  lemma ConnectedRelationReads(distance: int, count: int, id: string)
    ensures GetChild(ConnectedRelation(distance, count, id), "distance") == Some(IntToString(distance))
    ensures GetChild(ConnectedRelation(distance, count, id), "num-related-connections") == Some(IntToString(count))
    ensures FirstByTag(ConnectedRelation(distance, count, id), "connections") == Some(StubConnections(id))
  {
    var dLeaf := Leaf("distance", IntToString(distance));
    var kLeaf := Leaf("num-related-connections", IntToString(count));
    NothingBelowLeaf(dLeaf, "num-related-connections");
    NothingBelowLeaf(dLeaf, "connections");
    NothingBelowLeaf(kLeaf, "connections");
    FirstOfThree("relation-to-viewer", dLeaf, kLeaf, StubConnections(id), "distance");
    FirstOfThree("relation-to-viewer", dLeaf, kLeaf, StubConnections(id), "num-related-connections");
    FirstOfThree("relation-to-viewer", dLeaf, kLeaf, StubConnections(id), "connections");
  }

  /** The nested relation-to-viewer reads its counts as written and parses
      the stub as its one connection. */
  lemma ConnectedRelationCreate(distance: int, count: int, id: string, lib: Library)
    ensures RelationCreate(ConnectedRelation(distance, count, id), lib)
            == Success(RelationToViewer(distance, count, ParseConnections(StubConnections(id), lib)))
  {
    var n := ConnectedRelation(distance, count, id);
    ConnectedRelationReads(distance, count, id);
    ParseIntRoundTrip(distance);
    ParseIntRoundTrip(count);
    assert TotalAttribute(n).None?;
    assert RelationCreate(n, lib).value.connections == ParseConnections(FirstByTag(n, "connections").value, lib);
  }

  /** The search below an element with one child. */
  lemma FirstOfOne(tag: string, c: Node, t: string)
    ensures FirstByTag(El(tag, [c]), t) == if IsTagged(c, t) then Some(c) else FirstByTag(c, t)
  {
    NothingBelowLeaf(El(tag, []), t);
    FirstByTagCons(tag, map[], c, [], t);
    assert [c] + [] == [c];
  }

  lemma NestedPersonReads(distance: int, count: int, id: string)
    ensures FirstByTag(NestedPerson(distance, count, id), "relation-to-viewer")
            == Some(ConnectedRelation(distance, count, id))
    ensures FirstByTag(NestedPerson(distance, count, id), "connections")
            == FirstByTag(ConnectedRelation(distance, count, id), "connections")
    ensures GetChild(NestedPerson(distance, count, id), "distance") == Some(IntToString(distance))
  {
    var rel := ConnectedRelation(distance, count, id);
    ConnectedRelationReads(distance, count, id);
    FirstOfOne("person", rel, "relation-to-viewer");
    FirstOfOne("person", rel, "connections");
    FirstOfOne("person", rel, "distance");
  }

  /** Read through the person, the nested relation-to-viewer also
      supplies the profile's `distance` (the first `distance` element in
      document order) and the profile's connections (the first
      `connections` element), so the stub appears in both lists. */
  lemma NestedRelationShared(distance: int, count: int, id: string, lib: Library)
    ensures var r := Create(NestedPerson(distance, count, id), false, lib);
      && r.Some?
      && r.value.distance == Some(IntToString(distance))
      && r.value.relationToViewer.Some?
      && r.value.relationToViewer.value.distance == distance
      && r.value.relationToViewer.value.numRelatedConnections == count
      && r.value.connections == r.value.relationToViewer.value.connections
      && |r.value.connections| == 1
      && r.value.connections[0].Some?
      && r.value.connections[0].value.id == Some(id)
  {
    var rel := ConnectedRelation(distance, count, id);
    var p := NestedPerson(distance, count, id);
    NestedPersonReads(distance, count, id);
    ConnectedRelationCreate(distance, count, id, lib);
    ConnectedRelationReads(distance, count, id);
    RelationKeptInProfile(p, false, lib, rel);
    CreateParts(p, false, lib);
    SharedConnections(p, false, lib, rel);
    ConnectionStub(id, lib);
  }
}
