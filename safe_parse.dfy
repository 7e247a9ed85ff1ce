/**
 `parseXmlSafe` (app/static/app.js:2-9): parse XML text, and give back either
 the document or nothing at all. The parser itself belongs to the host and is
 passed in as a function; what is modelled is the try/catch and the scan for
 `parsererror` elements that decides between the two outcomes.
 */
module SafeParse {
  import opened XmlTree

  datatype Option<T> = None | Some(value: T)

  /** What `new DOMParser().parseFromString(text, 'application/xml')` does: throw, or return a document. */
  datatype ParseOutcome = Threw | Parsed(doc: XNode)

  /** The tag name of the element a lenient parser inserts where the input is malformed. */
  const ErrorMarker: string := "parsererror"

  // ---------------------------------------------------------------------------
  // getElementsByTagName
  // ---------------------------------------------------------------------------

  /**
   `n.getElementsByTagName(name)`: the descendant elements of `n` called `name`, in document order.
   The name is matched literally (the DOM's `"*"` wildcard is not modelled); the
   viewer only ever searches for `"parsererror"`.
   */
  function ElementsByTagName(n: XNode, name: string): (r: seq<XNode>)
    ensures forall i :: 0 <= i < |r| ==> r[i].Element? && r[i].name == name
  {
    match n
    case Element(_, _, cs) => InSubtrees(cs, name)
    case Document(root) => InSubtree(root, name)
    case _ => []
  }

  /** The elements called `name` in the subtree rooted at `n`, `n` included. */
  function InSubtree(n: XNode, name: string): (r: seq<XNode>)
    ensures forall i :: 0 <= i < |r| ==> r[i].Element? && r[i].name == name
    decreases n, 1
  {
    match n
    case Element(nm, _, cs) => (if nm == name then [n] else []) + InSubtrees(cs, name)
    case Document(root) => InSubtree(root, name)
    case _ => []
  }

  function InSubtrees(cs: seq<XNode>, name: string): (r: seq<XNode>)
    ensures forall i :: 0 <= i < |r| ==> r[i].Element? && r[i].name == name
    decreases cs, 0
  {
    if cs == [] then [] else InSubtree(cs[0], name) + InSubtrees(cs[1..], name)
  }

  /** Some element in the subtree rooted at `n`, `n` included, is called `name`. */
  predicate HasElementNamed(n: XNode, name: string)
    decreases n
  {
    match n
    case Element(nm, _, cs) => nm == name || exists i :: 0 <= i < |cs| && HasElementNamed(cs[i], name)
    case Document(root) => HasElementNamed(root, name)
    case _ => false
  }

  /** Some element strictly below `n` is called `name`. */
  predicate HasDescendantNamed(n: XNode, name: string)
  {
    match n
    case Element(_, _, cs) => exists i :: 0 <= i < |cs| && HasElementNamed(cs[i], name)
    case Document(root) => HasElementNamed(root, name)
    case _ => false
  }

  lemma {:induction false} InSubtreeFinds(n: XNode, name: string)
    ensures |InSubtree(n, name)| > 0 <==> HasElementNamed(n, name)
    decreases n, 1
  {
    match n
    case Element(nm, _, cs) =>
      InSubtreesFinds(cs, name);
    case Document(root) =>
      InSubtreeFinds(root, name);
    case _ =>
  }

  lemma {:induction false} InSubtreesFinds(cs: seq<XNode>, name: string)
    ensures |InSubtrees(cs, name)| > 0 <==> exists i :: 0 <= i < |cs| && HasElementNamed(cs[i], name)
    decreases cs, 0
  {
    if cs != [] {
      InSubtreeFinds(cs[0], name);
      InSubtreesFinds(cs[1..], name);
      if exists i :: 0 <= i < |cs| && HasElementNamed(cs[i], name) {
        var i :| 0 <= i < |cs| && HasElementNamed(cs[i], name);
        if i > 0 {
          assert cs[1..][i - 1] == cs[i];
        }
      }
      if exists i :: 0 <= i < |cs| - 1 && HasElementNamed(cs[1..][i], name) {
        var i :| 0 <= i < |cs| - 1 && HasElementNamed(cs[1..][i], name);
        assert cs[i + 1] == cs[1..][i];
      }
    }
  }

  /** The marker scan finds something exactly when some element below the document is a marker. */
  lemma MarkerScan(n: XNode, name: string)
    ensures |ElementsByTagName(n, name)| > 0 <==> HasDescendantNamed(n, name)
  {
    match n
    case Element(_, _, cs) => InSubtreesFinds(cs, name);
    case Document(root) => InSubtreeFinds(root, name);
    case _ =>
  }

  // ---------------------------------------------------------------------------
  // parseXmlSafe
  // ---------------------------------------------------------------------------

  /**
   `parseXmlSafe(xmlStr)` with `parse` standing for the host's parser: nothing
   when the parser throws or when any `parsererror` element occurs anywhere in
   the result, the parsed document itself otherwise.
   */
  function ParseXmlSafe(parse: string -> ParseOutcome, xmlStr: string): (r: Option<XNode>)
    ensures r.None? <==> parse(xmlStr).Threw? || HasDescendantNamed(parse(xmlStr).doc, ErrorMarker)
    ensures r.Some? ==> r.value == parse(xmlStr).doc
  {
    match parse(xmlStr)
    case Threw => None
    case Parsed(doc) =>
      MarkerScan(doc, ErrorMarker);
      if |ElementsByTagName(doc, ErrorMarker)| > 0 then None else Some(doc)
  }
}
