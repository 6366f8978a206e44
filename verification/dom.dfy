/** An already-parsed XML document, and the two lookups the profile
    parser makes on it: minidom's `getElementsByTagName` and the module's
    own `get_child` field accessor. */
module Dom {
  import opened Wrappers

  /** A node of the tree: an element with its tag name, attributes and
      child nodes, or a text node. */
  datatype Node =
    | Element(tag: string, attrs: map<string, string>, children: seq<Node>)
    | Text(data: string)

  /** True when `n` is an element whose tag name is `t`; text nodes never match. */
  predicate IsTagged(n: Node, t: string) {
    n.Element? && n.tag == t
  }

  /** Number of nodes in a tree; the measure every recursion of the parser decreases. */
  function Size(n: Node): nat {
    match n
    case Text(_) => 1
    case Element(_, _, cs) => 1 + SizeAll(cs)
  }

  function SizeAll(cs: seq<Node>): nat {
    if cs == [] then 0 else Size(cs[0]) + SizeAll(cs[1..])
  }

  /** All nodes strictly below `n`, in document (pre-order) order; `n` itself is excluded. */
  function Descendants(n: Node): seq<Node> {
    match n
    case Text(_) => []
    case Element(_, _, cs) => DescendantsAll(cs)
  }

  function DescendantsAll(cs: seq<Node>): seq<Node> {
    if cs == [] then [] else [cs[0]] + Descendants(cs[0]) + DescendantsAll(cs[1..])
  }

  /** The elements of `ds` tagged `t`, keeping their order. */
  function Tagged(ds: seq<Node>, t: string): (r: seq<Node>)
    ensures forall x :: x in r ==> x in ds && IsTagged(x, t)
    ensures |r| <= |ds|
  {
    if ds == [] then [] else (if IsTagged(ds[0], t) then [ds[0]] else []) + Tagged(ds[1..], t)
  }

  /** Every element of `ds` tagged `t` is kept. */
  lemma {:induction false} TaggedComplete(ds: seq<Node>, t: string, x: Node)
    requires x in ds && IsTagged(x, t)
    ensures x in Tagged(ds, t)
    decreases |ds|
  {
    if ds[0] != x {
      TaggedComplete(ds[1..], t, x);
    }
  }

  /** `i` is the position of the first element tagged `t` in `ds`. */
  predicate FirstTaggedAt(ds: seq<Node>, t: string, i: int) {
    && 0 <= i < |ds|
    && IsTagged(ds[i], t)
    && forall j :: 0 <= j < i ==> !IsTagged(ds[j], t)
  }

  lemma {:induction false} TaggedAppend(a: seq<Node>, b: seq<Node>, t: string)
    ensures Tagged(a + b, t) == Tagged(a, t) + Tagged(b, t)
    decreases |a|
  {
    if a != [] {
      assert (a + b)[1..] == a[1..] + b;
      TaggedAppend(a[1..], b, t);
    } else {
      assert a + b == b;
    }
  }

  /** Every descendant is a strictly smaller tree. */
  lemma {:induction false} DescendantsSmaller(n: Node)
    ensures forall d :: d in Descendants(n) ==> Size(d) < Size(n)
  {
    match n
    case Text(_) =>
    case Element(_, _, cs) => DescendantsAllSmaller(cs);
  }

  lemma {:induction false} DescendantsAllSmaller(cs: seq<Node>)
    ensures forall d :: d in DescendantsAll(cs) ==> Size(d) <= SizeAll(cs)
    decreases cs
  {
    if cs != [] {
      DescendantsSmaller(cs[0]);
      DescendantsAllSmaller(cs[1..]);
    }
  }

  /** minidom's `getElementsByTagName`: walk the children in order, keep each
      element tagged `t`, then search below it before moving on. */
  function ElementsByTagName(n: Node, t: string): (r: seq<Node>)
    ensures r == Tagged(Descendants(n), t)
    ensures forall x :: x in r ==> IsTagged(x, t) && Size(x) < Size(n)
  {
    DescendantsSmaller(n);
    match n
    case Text(_) => []
    case Element(_, _, cs) => ElementsByTagNameAll(cs, t)
  }

  function ElementsByTagNameAll(cs: seq<Node>, t: string): (r: seq<Node>)
    ensures r == Tagged(DescendantsAll(cs), t)
  {
    if cs == [] then []
    else
      TaggedAppend([cs[0]] + Descendants(cs[0]), DescendantsAll(cs[1..]), t);
      TaggedAppend([cs[0]], Descendants(cs[0]), t);
      (if IsTagged(cs[0], t) then [cs[0]] else [])
      + ElementsByTagName(cs[0], t)
      + ElementsByTagNameAll(cs[1..], t)
  }

  lemma {:induction false} TaggedFirst(ds: seq<Node>, t: string, i: int)
    requires FirstTaggedAt(ds, t, i)
    ensures |Tagged(ds, t)| > 0 && Tagged(ds, t)[0] == ds[i]
    decreases |ds|
  {
    if i > 0 {
      assert !IsTagged(ds[0], t);
      assert FirstTaggedAt(ds[1..], t, i - 1);
      TaggedFirst(ds[1..], t, i - 1);
    }
  }

  /** If some element of `ds` is tagged `t`, a first one exists. */
  lemma {:induction false} FirstTaggedExists(ds: seq<Node>, t: string, d: Node)
    requires d in ds && IsTagged(d, t)
    ensures exists i :: FirstTaggedAt(ds, t, i)
    decreases |ds|
  {
    if IsTagged(ds[0], t) {
      assert FirstTaggedAt(ds, t, 0);
    } else {
      FirstTaggedExists(ds[1..], t, d);
      var i :| FirstTaggedAt(ds[1..], t, i);
      assert FirstTaggedAt(ds, t, i + 1);
    }
  }

  /** No element below `n` is tagged `t`. */
  predicate NoneTagged(n: Node, t: string) {
    forall d :: d in Descendants(n) ==> !IsTagged(d, t)
  }

  /** `node.getElementsByTagName(t)[0]` when the list is not empty. */
  function FirstByTag(n: Node, t: string): (r: Option<Node>)
    ensures r.Some? ==> IsTagged(r.value, t) && Size(r.value) < Size(n)
    ensures r.None? <==> NoneTagged(n, t)
  {
    var es := ElementsByTagName(n, t);
    assert |es| == 0 ==> NoneTagged(n, t) by {
      forall d | d in Descendants(n) && IsTagged(d, t) ensures d in es {
        TaggedComplete(Descendants(n), t, d);
      }
    }
    if |es| == 0 then None else Some(es[0])
  }

  /** The element `FirstByTag` finds is the first element tagged `t` in a
      pre-order walk below `n`. */
  lemma FirstByTagIsFirst(n: Node, t: string)
    ensures forall i :: FirstTaggedAt(Descendants(n), t, i) ==> FirstByTag(n, t) == Some(Descendants(n)[i])
    ensures FirstByTag(n, t).Some? ==> FirstByTag(n, t).value in Descendants(n)
  {
    forall i | FirstTaggedAt(Descendants(n), t, i)
      ensures FirstByTag(n, t) == Some(Descendants(n)[i])
    {
      TaggedFirst(Descendants(n), t, i);
    }
  }

  /** `childNodes[0].nodeValue` of an element: the text of its first child
      when that child is a text node, `None` when there are no children or
      the first child is an element. */
  function FirstText(e: Node): Option<string> {
    if e.Element? && |e.children| > 0 && e.children[0].Text? then Some(e.children[0].data) else None
  }

  /** `get_child`: the text of the first child of the first descendant
      tagged `t`. Every failure (no such descendant, no children, an element
      as first child) yields `None`; nothing is raised. */
  function GetChild(n: Node, t: string): (r: Option<string>)
    ensures NoneTagged(n, t) ==> r.None?
  {
    match FirstByTag(n, t)
    case None => None
    case Some(e) => FirstText(e)
  }

  /** `get_child` reads the first descendant tagged `t` in document order,
      and gives `None` when no descendant is tagged `t`. */
  lemma GetChildReadsFirst(n: Node, t: string)
    ensures forall i :: FirstTaggedAt(Descendants(n), t, i) ==> GetChild(n, t) == FirstText(Descendants(n)[i])
    ensures NoneTagged(n, t) ==> GetChild(n, t).None?
  {
    FirstByTagIsFirst(n, t);
  }

  /** `get_child` returns `s` exactly when the first descendant tagged `t`
      has the text node `s` as its first child. */
  lemma GetChildSomeIff(n: Node, t: string, s: string)
    ensures GetChild(n, t) == Some(s) <==>
      exists i :: && FirstTaggedAt(Descendants(n), t, i)
                  && |Descendants(n)[i].children| > 0
                  && Descendants(n)[i].children[0] == Text(s)
  {
    var ds := Descendants(n);
    FirstByTagIsFirst(n, t);
    if GetChild(n, t) == Some(s) {
      var e := FirstByTag(n, t).value;
      assert e in ds;
      FirstTaggedExists(ds, t, e);
    }
  }

  /** `e.hasAttribute(k)` followed by `e.attributes[k].value`. */
  function Attribute(e: Node, k: string): (r: Option<string>)
    ensures r.Some? <==> e.Element? && k in e.attrs
    ensures r.Some? ==> r.value == e.attrs[k]
  {
    if e.Element? && k in e.attrs then Some(e.attrs[k]) else None
  }

  /** The only node below `<tag>text</tag>` is its text node. */
  lemma LeafDescendants(tag: string, text: string)
    ensures Descendants(Element(tag, map[], [Text(text)])) == [Text(text)]
  {
    var cs := [Text(text)];
    assert cs[1..] == [];
    assert DescendantsAll(cs) == [Text(text)] + [] + [];
  }

  /** Descendants of an element whose first child is `c`: `c`, the nodes
      below `c`, then the descendants contributed by the remaining children. */
  lemma DescendantsCons(tag: string, attrs: map<string, string>, c: Node, cs: seq<Node>)
    ensures Descendants(Element(tag, attrs, [c] + cs))
            == [c] + Descendants(c) + Descendants(Element(tag, attrs, cs))
  {
    assert ([c] + cs)[1..] == cs;
  }

  /** `getElementsByTagName`, one child at a time: the first child when it
      is tagged `t`, the matches below it, then the matches among the
      remaining children. */
  lemma ElementsByTagNameCons(tag: string, attrs: map<string, string>, c: Node, cs: seq<Node>, t: string)
    ensures ElementsByTagName(Element(tag, attrs, [c] + cs), t)
            == (if IsTagged(c, t) then [c] else []) + ElementsByTagName(c, t)
               + ElementsByTagName(Element(tag, attrs, cs), t)
  {
    assert ([c] + cs)[1..] == cs;
  }

  /** The pre-order search, one child at a time: the first child when it
      is tagged `k`, else the first match below it, else the first match
      among the remaining children. */
  lemma FirstByTagCons(tag: string, attrs: map<string, string>, c: Node, cs: seq<Node>, k: string)
    ensures FirstByTag(Element(tag, attrs, [c] + cs), k)
            == if IsTagged(c, k) then Some(c)
               else if FirstByTag(c, k).Some? then FirstByTag(c, k)
               else FirstByTag(Element(tag, attrs, cs), k)
  {
    ElementsByTagNameCons(tag, attrs, c, cs, k);
  }

  /** Nothing is found below a childless element or a text node. */
  lemma NothingBelowLeaf(n: Node, t: string)
    requires n.Text? || n.children == [] || (|n.children| == 1 && n.children[0].Text?)
    ensures ElementsByTagName(n, t) == []
    ensures FirstByTag(n, t).None?
  {
    if n.Element? && |n.children| == 1 {
      assert n.children == [n.children[0]] + [];
    }
  }

  /** Every element below `n` carries one of the tags in `tags`. */
  predicate TagsWithin(n: Node, tags: set<string>) {
    forall d :: d in Descendants(n) && d.Element? ==> d.tag in tags
  }

  /** A leaf element (no children, or a single text child) has no element below it. */
  lemma LeafTagsWithin(n: Node, tags: set<string>)
    requires n.Element? && (n.children == [] || (|n.children| == 1 && n.children[0].Text?))
    ensures TagsWithin(n, tags)
  {
    if n.children != [] {
      assert n.children == [n.children[0]] + [];
      DescendantsCons(n.tag, n.attrs, n.children[0], []);
    }
  }

  /** The tags below an element, one child at a time. */
  lemma TagsWithinCons(tag: string, attrs: map<string, string>, c: Node, cs: seq<Node>, tags: set<string>)
    requires c.Element? ==> c.tag in tags
    requires TagsWithin(c, tags) && TagsWithin(Element(tag, attrs, cs), tags)
    ensures TagsWithin(Element(tag, attrs, [c] + cs), tags)
  {
    DescendantsCons(tag, attrs, c, cs);
  }

  /** A tag that no element below `n` carries is not found below `n`. */
  lemma AbsentTag(n: Node, tags: set<string>, t: string)
    requires TagsWithin(n, tags)
    requires t !in tags
    ensures NoneTagged(n, t)
  {
  }

  /** `getElementsByTagName` finds nothing where no element is tagged `t`. */
  lemma NothingTagged(n: Node, t: string)
    requires NoneTagged(n, t)
    ensures ElementsByTagName(n, t) == []
  {
    assert FirstByTag(n, t).None?;
  }
}
