/**
 The XML side of the viewer: `buildNode(node)` inside `renderXmlTree`
 (app/static/app.js:43-81), over the DOM node kinds it reads.
 */
module XmlTree {
  import opened RenderTree

  /** One entry of `node.attributes`. */
  datatype Attr = Attr(name: string, value: string)

  /**
   A DOM node as `buildNode` sees it: its kind, name, attributes and child nodes.
   The type admits shapes a DOM never builds (a document among an element's
   children, a document whose root is not an element); the model gives them the
   same treatment the code would.
   */
  datatype XNode =
    | Element(name: string, attrs: seq<Attr>, children: seq<XNode>)  // nodeType 1
    | Text(value: string)                                            // nodeType 3
    | Document(root: XNode)                                          // nodeType 9, with its documentElement
    | Other(nodeName: string)                                        // comments, CDATA sections, processing instructions, ...

  /** `node.nodeName` */
  function NodeName(n: XNode): (r: string)
    ensures n.Element? ==> r == n.name
    ensures n.Text? ==> r == "#text"
    ensures n.Document? ==> r == "#document"
    ensures n.Other? ==> r == n.nodeName
  {
    match n
    case Element(name, _, _) => name
    case Text(_) => "#text"
    case Document(_) => "#document"
    case Other(nodeName) => nodeName
  }

  // ---------------------------------------------------------------------------
  // String.prototype.trim
  // ---------------------------------------------------------------------------

  /** ECMAScript WhiteSpace and LineTerminator code points: what `trim()` strips. */
  predicate IsSpace(c: char)
  {
    c == '\t' || c == '\n' || c == '\U{000B}' || c == '\U{000C}' || c == '\r' || c == ' ' ||
    c == '\U{00A0}' || c == '\U{1680}' || ('\U{2000}' <= c <= '\U{200A}') ||
    c == '\U{2028}' || c == '\U{2029}' || c == '\U{202F}' || c == '\U{205F}' ||
    c == '\U{3000}' || c == '\U{FEFF}'
  }

  /** Space, tab, line breaks, no-break space, the byte order mark and the ideographic space are stripped; the zero-width space, NEL and U+180E are not. */
  lemma TrimSetExamples()
    ensures IsSpace(' ') && IsSpace('\t') && IsSpace('\n') && IsSpace('\r')
    ensures IsSpace('\U{00A0}') && IsSpace('\U{FEFF}') && IsSpace('\U{3000}') && IsSpace('\U{2028}')
    ensures !IsSpace('a') && !IsSpace('\U{200B}') && !IsSpace('\U{0085}') && !IsSpace('\U{180E}')
  {
  }

  predicate AllSpace(s: string)
  {
    forall i :: 0 <= i < |s| ==> IsSpace(s[i])
  }

  /** The number of white-space characters at the start of `s`. */
  function LeadingSpace(s: string): (k: nat)
    ensures k <= |s| && AllSpace(s[..k])
    ensures k < |s| ==> !IsSpace(s[k])
  {
    if s != [] && IsSpace(s[0]) then
      var k := LeadingSpace(s[1..]);
      SpacePrefixCons(s, k + 1);
      k + 1
    else 0
  }

  /** Drops leading white space: the result is the suffix of `s` after its leading white space. */
  function TrimStart(s: string): (r: string)
    ensures |r| <= |s| && r == s[|s| - |r|..]
    ensures AllSpace(s[..|s| - |r|])
    ensures r != [] ==> !IsSpace(r[0])
  {
    s[LeadingSpace(s)..]
  }

  /** A white-space character in front of a white-space prefix gives a longer white-space prefix. */
  lemma SpacePrefixCons(s: string, k: nat)
    requires 0 < k <= |s| && IsSpace(s[0]) && AllSpace(s[1..][..k - 1])
    ensures AllSpace(s[..k])
  {
    forall i | 1 <= i < k
      ensures IsSpace(s[i])
    {
      assert s[i] == s[1..][..k - 1][i - 1];
    }
  }

  /** Drops trailing white space: the result is the prefix of `s` before its trailing white space. */
  function TrimEnd(s: string): (r: string)
    ensures |r| <= |s| && r == s[..|r|]
    ensures AllSpace(s[|r|..])
    ensures r != [] ==> !IsSpace(r[|r| - 1])
  {
    if s != [] && IsSpace(s[|s| - 1]) then TrimEnd(s[..|s| - 1]) else s
  }

  /** `s.trim()`: the slice of `s` between its leading and its trailing white space. */
  function Trim(s: string): (r: string)
    ensures r == [] <==> AllSpace(s)
    ensures r != [] ==> !IsSpace(r[0]) && !IsSpace(r[|r| - 1])
  {
    var t := TrimStart(s);
    var r := TrimEnd(t);
    StripBoth(s, t, r);
    r
  }

  /** What `trim()` keeps is one contiguous slice of `s`, with only white space on either side of it. */
  lemma TrimIsSlice(s: string)
    ensures PaddedSlice(s, |s| - |TrimStart(s)|, Trim(s))
  {
    var t := TrimStart(s);
    var r := TrimEnd(t);
    assert Trim(s) == r;
    StripBoth(s, t, r);
  }

  /** `r` sits in `s` at offset `a`, with only white space before and after it. */
  predicate PaddedSlice(s: string, a: nat, r: string)
  {
    a + |r| <= |s| && r == s[a..a + |r|] && AllSpace(s[..a]) && AllSpace(s[a + |r|..])
  }

  /** Stripping a white-space prefix and then a white-space suffix leaves a slice, empty only for blank input. */
  lemma StripBoth(s: string, t: string, r: string)
    requires |t| <= |s| && t == s[|s| - |t|..] && AllSpace(s[..|s| - |t|])
    requires t != [] ==> !IsSpace(t[0])
    requires |r| <= |t| && r == t[..|r|] && AllSpace(t[|r|..])
    ensures PaddedSlice(s, |s| - |t|, r)
    ensures r == [] <==> AllSpace(s)
  {
    var a := |s| - |t|;
    assert s[a + |r|..] == t[|r|..];
    if r == [] {
      assert t == [];
      assert s[..a] == s;
    } else {
      assert r[0] == t[0] == s[a];
    }
  }

  // ---------------------------------------------------------------------------
  // buildNode(node)
  // ---------------------------------------------------------------------------

  /** One `@name: value` leaf per attribute, in attribute order. */
  function AttrLeaves(attrs: seq<Attr>): (r: seq<RenderNode>)
    ensures |r| == |attrs|
    ensures forall i :: 0 <= i < |r| ==> r[i] == Leaf("@" + attrs[i].name + ": " + attrs[i].value)
  {
    seq(|attrs|, i requires 0 <= i < |attrs| => Leaf("@" + attrs[i].name + ": " + attrs[i].value))
  }

  /** What a text child contributes: nothing when blank, otherwise one `#text:` leaf of the trimmed text. */
  function TextItems(s: string): (r: seq<RenderNode>)
    ensures r == [] <==> AllSpace(s)
    ensures r != [] ==> r == [Leaf("#text: " + Trim(s))]
  {
    var t := Trim(s);
    if t == "" then [] else [Leaf("#text: " + t)]
  }

  /** The `<li>` that `buildNode(n)` returns. */
  function BuildNode(n: XNode): (r: RenderNode)
    ensures r.Branch? <==> n.Element?
    ensures n.Element? ==> r.summary == "<" + n.name + ">" && !r.open
    ensures n.Document? ==> r.Wrapper? && |r.body| == 1 && r == Wrapper([BuildNode(n.root)])
    ensures !n.Element? && !n.Document? ==> r == Leaf(NodeName(n))
    decreases n, 1
  {
    match n
    case Element(name, attrs, children) =>
      Branch("<" + name + ">", false, AttrLeaves(attrs) + BuildChildren(children))
    case Document(root) => Wrapper([BuildNode(root)])
    case _ => Leaf(NodeName(n))
  }

  /** The `childNodes.forEach` loop: text children are trimmed, every other child goes to `buildNode`. */
  function BuildChildren(cs: seq<XNode>): (r: seq<RenderNode>)
    ensures |r| <= |cs|
    decreases cs, 0
  {
    if cs == [] then [] else ChildItems(cs[0]) + BuildChildren(cs[1..])
  }

  /** One pass of the loop body: the trimmed text of a text child, `buildNode` of any other child. */
  function ChildItems(c: XNode): (r: seq<RenderNode>)
    ensures |r| <= 1
    ensures r == [] <==> Blank(c)
    decreases c, 2
  {
    if c.Text? then TextItems(c.value) else [BuildNode(c)]
  }

  // ---------------------------------------------------------------------------
  // Element layout: attributes first, then the kept children in document order
  // ---------------------------------------------------------------------------

  /** A text child whose trimmed content is empty. */
  predicate Blank(c: XNode)
  {
    c.Text? && Trim(c.value) == ""
  }

  /** The child nodes that contribute an item: all but the blank text nodes, in order. */
  function Kept(cs: seq<XNode>): (r: seq<XNode>)
    ensures |r| <= |cs|
    ensures forall i :: 0 <= i < |r| ==> !Blank(r[i])
  {
    if cs == [] then [] else (if Blank(cs[0]) then [] else [cs[0]]) + Kept(cs[1..])
  }

  /** Kept drops exactly the blank text nodes. */
  lemma {:induction false} KeptMembers(cs: seq<XNode>)
    ensures forall c :: c in Kept(cs) <==> c in cs && !Blank(c)
  {
    if cs != [] {
      KeptMembers(cs[1..]);
      assert cs == [cs[0]] + cs[1..];
    }
  }

  /** The item a kept child becomes. */
  function RenderChild(c: XNode): RenderNode
  {
    if c.Text? then Leaf("#text: " + Trim(c.value)) else BuildNode(c)
  }

  /** The loop's item for a kept child is `buildNode` of it, except for text, which becomes `#text: ` and the trimmed text instead of `#text`. */
  lemma RenderChildVsBuildNode(c: XNode)
    ensures c.Text? ==> RenderChild(c) == Leaf("#text: " + Trim(c.value))
    ensures RenderChild(c) == BuildNode(c) <==> !c.Text?
  {
    if c.Text? {
      assert |RenderChild(c).text| >= 7 > |BuildNode(c).text|;
    }
  }

  /** One pass of the loop yields nothing for a blank text child and the child's item otherwise. */
  lemma ChildItemsKept(c: XNode)
    ensures ChildItems(c) == if Blank(c) then [] else [RenderChild(c)]
  {
  }

  lemma {:induction false} ChildrenAreKept(cs: seq<XNode>)
    ensures BuildChildren(cs) == RenderAll(Kept(cs))
  {
    if cs != [] {
      ChildrenAreKept(cs[1..]);
      var rest := BuildChildren(cs[1..]);
      var k := Kept(cs[1..]);
      ChildItemsKept(cs[0]);
      if Blank(cs[0]) {
        assert BuildChildren(cs) == [] + rest == rest;
        assert Kept(cs) == [] + k == k;
      } else {
        assert BuildChildren(cs) == [RenderChild(cs[0])] + rest;
        assert Kept(cs) == [cs[0]] + k;
        assert Kept(cs)[1..] == k;
      }
    }
  }

  /** `RenderChild` applied to each kept child, in order. */
  function RenderAll(k: seq<XNode>): (r: seq<RenderNode>)
    ensures |r| == |k|
  {
    if k == [] then [] else [RenderChild(k[0])] + RenderAll(k[1..])
  }

  lemma {:induction false} RenderAllAt(k: seq<XNode>, j: nat)
    requires j < |k|
    ensures RenderAll(k)[j] == RenderChild(k[j])
  {
    if j > 0 {
      RenderAllAt(k[1..], j - 1);
      assert RenderAll(k)[j] == RenderAll(k[1..])[j - 1];
    }
  }

  /** An element is a collapsed `<name>` branch: one leaf per attribute, then one item per kept child. */
  lemma ElementLayout(name: string, attrs: seq<Attr>, cs: seq<XNode>)
    ensures var r := BuildNode(Element(name, attrs, cs));
      r.Branch? && r.summary == "<" + name + ">" && !r.open &&
      |r.body| == |attrs| + |Kept(cs)| &&
      (forall i :: 0 <= i < |attrs| ==> r.body[i] == Leaf("@" + attrs[i].name + ": " + attrs[i].value)) &&
      (forall j :: 0 <= j < |Kept(cs)| ==> r.body[|attrs| + j] == RenderChild(Kept(cs)[j]))
  {
    ChildrenAreKept(cs);
    var r := BuildNode(Element(name, attrs, cs));
    var a := AttrLeaves(attrs);
    var b := BuildChildren(cs);
    assert r.body == a + b;
    assert |a| == |attrs| && |b| == |Kept(cs)|;
    forall i | 0 <= i < |attrs|
      ensures r.body[i] == Leaf("@" + attrs[i].name + ": " + attrs[i].value)
    {
      assert r.body[i] == a[i];
    }
    forall j | 0 <= j < |Kept(cs)|
      ensures r.body[|attrs| + j] == RenderChild(Kept(cs)[j])
    {
      assert r.body[|attrs| + j] == b[j];
      RenderAllAt(Kept(cs), j);
    }
  }

  /** A child list without text nodes yields exactly one item per child. */
  lemma {:induction false} NoTextChildren(cs: seq<XNode>)
    requires forall i :: 0 <= i < |cs| ==> !cs[i].Text?
    ensures |BuildChildren(cs)| == |cs|
    decreases cs
  {
    if cs != [] {
      assert forall i :: 0 <= i < |cs[1..]| ==> cs[1..][i] == cs[i + 1];
      NoTextChildren(cs[1..]);
    }
  }

  /** A kept text child shows as `#text: ` and its trimmed, non-empty, non-padded content. */
  lemma TextChildTrimmed(cs: seq<XNode>, j: nat)
    requires j < |Kept(cs)| && Kept(cs)[j].Text?
    ensures var t := Trim(Kept(cs)[j].value);
      RenderChild(Kept(cs)[j]) == Leaf("#text: " + t) && t != [] && !IsSpace(t[0]) && !IsSpace(t[|t| - 1])
  {
  }

  // ---------------------------------------------------------------------------
  // One branch per element
  // ---------------------------------------------------------------------------

  /** Number of element nodes under and including `n`. */
  function ElementCount(n: XNode): nat
    decreases n, 1
  {
    match n
    case Element(_, _, cs) => 1 + ElementCountIn(cs)
    case Document(root) => ElementCount(root)
    case _ => 0
  }

  function ElementCountIn(cs: seq<XNode>): nat
    decreases cs, 0
  {
    if cs == [] then 0 else ElementCount(cs[0]) + ElementCountIn(cs[1..])
  }

  lemma {:induction false} AttrLeavesBranches(attrs: seq<Attr>)
    ensures BranchesIn(AttrLeaves(attrs)) == 0
    ensures AllCollapsedIn(AttrLeaves(attrs))
  {
    if attrs != [] {
      assert AttrLeaves(attrs)[1..] == AttrLeaves(attrs[1..]);
      AttrLeavesBranches(attrs[1..]);
    }
  }

  lemma {:induction false} BranchPerElement(n: XNode)
    ensures Branches(BuildNode(n)) == ElementCount(n)
    decreases n, 1
  {
    match n
    case Element(name, attrs, cs) =>
      BranchesInAppend(AttrLeaves(attrs), BuildChildren(cs));
      AttrLeavesBranches(attrs);
      ChildrenBranches(cs);
    case Document(root) =>
      assert BuildNode(n) == Wrapper([BuildNode(root)]);
      BranchPerElement(root);
      assert [BuildNode(root)][1..] == [];
      assert BranchesIn([BuildNode(root)]) == Branches(BuildNode(root));
    case _ =>
  }

  lemma {:induction false} ChildrenBranches(cs: seq<XNode>)
    ensures BranchesIn(BuildChildren(cs)) == ElementCountIn(cs)
    decreases cs, 0
  {
    if cs != [] {
      assert BuildChildren(cs) == ChildItems(cs[0]) + BuildChildren(cs[1..]);
      BranchesInAppend(ChildItems(cs[0]), BuildChildren(cs[1..]));
      ChildrenBranches(cs[1..]);
      HeadBranches(cs[0]);
    }
  }

  /** One pass of the child loop adds one branch per element in that child's subtree. */
  lemma {:induction false} HeadBranches(c: XNode)
    ensures BranchesIn(ChildItems(c)) == ElementCount(c)
    decreases c, 2
  {
    var head := ChildItems(c);
    if c.Text? {
      if head != [] {
        assert head == [Leaf("#text: " + Trim(c.value))];
        assert head[1..] == [];
      }
    } else {
      assert head == [BuildNode(c)];
      BranchPerElement(c);
      assert head[1..] == [];
    }
  }

  // ---------------------------------------------------------------------------
  // Every branch starts collapsed
  // ---------------------------------------------------------------------------

  lemma {:induction false} XmlCollapsed(n: XNode)
    ensures AllCollapsed(BuildNode(n))
    decreases n, 1
  {
    match n
    case Element(name, attrs, cs) =>
      AllCollapsedInAppend(AttrLeaves(attrs), BuildChildren(cs));
      AttrLeavesBranches(attrs);
      ChildrenCollapsed(cs);
    case Document(root) =>
      assert BuildNode(n) == Wrapper([BuildNode(root)]);
      XmlCollapsed(root);
      assert [BuildNode(root)][1..] == [];
    case _ =>
  }

  lemma {:induction false} ChildrenCollapsed(cs: seq<XNode>)
    ensures AllCollapsedIn(BuildChildren(cs))
    decreases cs, 0
  {
    if cs != [] {
      assert BuildChildren(cs) == ChildItems(cs[0]) + BuildChildren(cs[1..]);
      AllCollapsedInAppend(ChildItems(cs[0]), BuildChildren(cs[1..]));
      ChildrenCollapsed(cs[1..]);
      HeadCollapsed(cs[0]);
    }
  }

  /** Whatever one pass of the child loop adds starts collapsed. */
  lemma {:induction false} HeadCollapsed(c: XNode)
    ensures AllCollapsedIn(ChildItems(c))
    decreases c, 2
  {
    var head := ChildItems(c);
    if c.Text? {
      if head != [] {
        assert head == [Leaf("#text: " + Trim(c.value))];
        assert head[1..] == [];
        assert AllCollapsed(head[0]) && AllCollapsedIn(head[1..]);
      }
    } else {
      assert head == [BuildNode(c)];
      XmlCollapsed(c);
      assert head[1..] == [];
    }
  }

  // ---------------------------------------------------------------------------
  // Examples
  // ---------------------------------------------------------------------------

  lemma TrimExamples()
    ensures Trim("  ") == "" && Trim("hi") == "hi"
  {
    assert IsSpace(' ') && !IsSpace('h') && !IsSpace('i');
    assert "  "[1..] == " " && " "[1..] == "";
    assert TrimStart("  ") == "";
    assert TrimStart("hi") == "hi" && TrimEnd("hi") == "hi";
  }

  lemma TextItemsExamples()
    ensures TextItems("  ") == [] && TextItems("hi") == [Leaf("#text: hi")]
  {
    assert IsSpace("  "[0]) && IsSpace("  "[1]);
    assert !IsSpace("hi"[0]);
    HiTrimmed();
    assert "#text: " + "hi" == "#text: hi";
  }

  lemma HiTrimmed()
    ensures Trim("hi") == "hi"
  {
    assert !IsSpace('h') && !IsSpace('i');
    assert TrimStart("hi") == "hi" && TrimEnd("hi") == "hi";
  }

  /** `<name>  </name>`: a blank text child contributes nothing, so the branch is empty. */
  lemma BlankOnlyChild(name: string, t: string)
    requires AllSpace(t)
    ensures BuildNode(Element(name, [], [Text(t)])) == Branch("<" + name + ">", false, [])
  {
    var cs := [Text(t)];
    assert cs[1..] == [];
    assert ChildItems(cs[0]) == [];
    assert BuildChildren(cs) == [];
    assert AttrLeaves([]) == [];
  }

  /** `<name>text</name>`: the branch holds the single leaf `#text: ` and the trimmed text. */
  lemma TextOnlyChild(name: string, t: string)
    requires !AllSpace(t)
    ensures BuildNode(Element(name, [], [Text(t)])) == Branch("<" + name + ">", false, [Leaf("#text: " + Trim(t))])
  {
    var cs := [Text(t)];
    assert cs[1..] == [];
    assert ChildItems(cs[0]) == [Leaf("#text: " + Trim(t))];
    assert BuildChildren(cs) == [Leaf("#text: " + Trim(t))];
    assert AttrLeaves([]) == [];
  }

  /**
   `<r k="v"><c>  </c><c>text</c></r>`: one attribute leaf, then an empty `<c>`
   branch for the blank child, then a `<c>` branch holding the trimmed text.
   */
  lemma AttributeAndTwoChildren(r: string, k: string, v: string, c: string, t1: string, t2: string)
    requires AllSpace(t1) && !AllSpace(t2)
    ensures BuildNode(Element(r, [Attr(k, v)], [Element(c, [], [Text(t1)]), Element(c, [], [Text(t2)])])) ==
      Branch("<" + r + ">", false, [
        Leaf("@" + k + ": " + v),
        Branch("<" + c + ">", false, []),
        Branch("<" + c + ">", false, [Leaf("#text: " + Trim(t2))])])
  {
    BlankOnlyChild(c, t1);
    TextOnlyChild(c, t2);
    WithAttributeAndTwoElements(r, k, v, Element(c, [], [Text(t1)]), Element(c, [], [Text(t2)]),
      Branch("<" + c + ">", false, []), Branch("<" + c + ">", false, [Leaf("#text: " + Trim(t2))]));
  }

  /** An element with one attribute and two element children lists the attribute leaf, then the two children's items. */
  lemma WithAttributeAndTwoElements(r: string, k: string, v: string, e1: XNode, e2: XNode, b1: RenderNode, b2: RenderNode)
    requires e1.Element? && e2.Element? && BuildNode(e1) == b1 && BuildNode(e2) == b2
    ensures BuildNode(Element(r, [Attr(k, v)], [e1, e2])) == Branch("<" + r + ">", false, [Leaf("@" + k + ": " + v), b1, b2])
  {
    TwoElementChildren(e1, e2);
    var attrs := [Attr(k, v)];
    assert AttrLeaves(attrs) == [Leaf("@" + k + ": " + v)];
    assert AttrLeaves(attrs) + BuildChildren([e1, e2]) == [Leaf("@" + k + ": " + v), b1, b2];
  }

  /** Two element children each yield their own item, in order. */
  lemma TwoElementChildren(e1: XNode, e2: XNode)
    requires e1.Element? && e2.Element?
    ensures BuildChildren([e1, e2]) == [BuildNode(e1), BuildNode(e2)]
  {
    var cs := [e1, e2];
    assert cs[1..] == [e2] && cs[1..][1..] == [];
    assert ChildItems(e1) == [BuildNode(e1)] && ChildItems(e2) == [BuildNode(e2)];
    assert BuildChildren([e2]) == [BuildNode(e2)] + BuildChildren([]);
  }

  /** A comment child is not skipped: it shows as a `#comment` leaf. */
  lemma CommentChildExample()
    ensures BuildNode(Element("a", [], [Other("#comment")])) == Branch("<a>", false, [Leaf("#comment")])
  {
    assert BuildChildren([Other("#comment")]) == [Leaf("#comment")];
  }
}
