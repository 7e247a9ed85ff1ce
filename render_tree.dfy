/**
 The tree that both builders produce: one value per `<li>` the page shows.
 - `Leaf(text)` is an `<li>` whose text content is `text`;
 - `Branch(summary, open, body)` is an `<li>` holding a `<details>` element
   whose `<summary>` reads `summary` and whose `<ul>` holds `body`;
 - `Wrapper(body)` is an `<li>` holding a bare `<ul>` (no heading, nothing to
   collapse); only the XML document node produces one.
 */
module RenderTree {

  datatype RenderNode =
    | Leaf(text: string)
    | Branch(summary: string, open: bool, body: seq<RenderNode>)
    | Wrapper(body: seq<RenderNode>)

  /** The text a reader sees first for this node ("" for a wrapper). */
  function Heading(n: RenderNode): string
  {
    match n
    case Leaf(t) => t
    case Branch(s, _, _) => s
    case Wrapper(_) => ""
  }

  /** Every `<details>` in the tree starts closed. */
  predicate AllCollapsed(n: RenderNode)
  {
    match n
    case Leaf(_) => true
    case Branch(_, open, body) => !open && AllCollapsedIn(body)
    case Wrapper(body) => AllCollapsedIn(body)
  }

  predicate AllCollapsedIn(ns: seq<RenderNode>)
  {
    ns == [] || (AllCollapsed(ns[0]) && AllCollapsedIn(ns[1..]))
  }

  /** Number of `<li>` items in the tree. */
  function Size(n: RenderNode): nat
  {
    match n
    case Leaf(_) => 1
    case Branch(_, _, body) => 1 + SizeIn(body)
    case Wrapper(body) => 1 + SizeIn(body)
  }

  function SizeIn(ns: seq<RenderNode>): nat
  {
    if ns == [] then 0 else Size(ns[0]) + SizeIn(ns[1..])
  }

  /** Number of collapsible units (`<details>`) in the tree. */
  function Branches(n: RenderNode): nat
  {
    match n
    case Leaf(_) => 0
    case Branch(_, _, body) => 1 + BranchesIn(body)
    case Wrapper(body) => BranchesIn(body)
  }

  function BranchesIn(ns: seq<RenderNode>): nat
  {
    if ns == [] then 0 else Branches(ns[0]) + BranchesIn(ns[1..])
  }

  /** Headings of leaves and branches in depth-first pre-order (wrappers add none). */
  function Labels(n: RenderNode): seq<string>
  {
    match n
    case Leaf(t) => [t]
    case Branch(s, _, body) => [s] + LabelsIn(body)
    case Wrapper(body) => LabelsIn(body)
  }

  function LabelsIn(ns: seq<RenderNode>): seq<string>
  {
    if ns == [] then [] else Labels(ns[0]) + LabelsIn(ns[1..])
  }

  lemma {:induction false} AllCollapsedInAppend(a: seq<RenderNode>, b: seq<RenderNode>)
    ensures AllCollapsedIn(a + b) <==> AllCollapsedIn(a) && AllCollapsedIn(b)
  {
    if a != [] {
      assert (a + b)[1..] == a[1..] + b;
      AllCollapsedInAppend(a[1..], b);
    } else {
      assert a + b == b;
    }
  }

  lemma {:induction false} BranchesInAppend(a: seq<RenderNode>, b: seq<RenderNode>)
    ensures BranchesIn(a + b) == BranchesIn(a) + BranchesIn(b)
  {
    if a != [] {
      assert (a + b)[1..] == a[1..] + b;
      BranchesInAppend(a[1..], b);
    } else {
      assert a + b == b;
    }
  }
}
