# JSON / XML tree viewer, modelled in Dafny

The browser script of the converter shows a parsed JSON value or a parsed XML
document as nested lists of collapsible `<details>` units. It has three parts:

- `parseXmlSafe` parses XML text with the host's `DOMParser`. It returns `null`
  when parsing throws, or when the parsed document contains any `parsererror`
  element. Otherwise it returns the document.
- `renderJsonTree` empties a container and attaches one `<ul class="tree-root">`.
  The list holds one item per entry of a root array or object, or a single
  item for a root scalar. Each container below the root becomes a closed
  `<details>` whose summary is `key: Array` or `key: Object`. Each scalar below
  the root becomes a text item `key: String(value)`; a root scalar's item is
  `String(value)` alone.
- `renderXmlTree` does the same for a DOM node. An element becomes a closed
  `<details>` headed `<name>`. Its items are first one `@name: value` leaf per
  attribute, then its child nodes in order. Text children are trimmed, and
  blank ones are dropped. The document node becomes a bare wrapper around its
  root element. Any other node becomes a leaf holding its `nodeName`.

Modules, one per component:

- `RenderTree` (`render_tree.dfy`): the output. `Leaf(text)` is a text `<li>`.
  `Branch(summary, open, body)` is an `<li>` holding a `<details>`.
  `Wrapper(body)` is an `<li>` holding a bare `<ul>`. The module also defines
  pre-order headings, node and branch counts, and the "all collapsed" predicate.
- `JsonTree` (`json_tree.dfy`): JSON values, `build`, the top-level list, and
  decimal rendering of numbers and array indices.
- `XmlTree` (`xml_tree.dfy`): DOM nodes, `trim()`, `buildNode`, and the
  reference filter `Kept` for the child nodes that show up.
- `SafeParse` (`safe_parse.dfy`): `getElementsByTagName` and `parseXmlSafe`.
  The parser is a function parameter.
- `Mount` (`mount.dfy`): the container as a class whose child list is cleared
  and then appended to.

Points of the source that are easy to misread:

- Comment children of an element are not skipped. They reach `buildNode`
  (app/static/app.js:68) and show as a `#comment` leaf
  (`XmlTree.CommentChildExample`).
- A branch is a `<details>` unit, even when it has no children. So `[]` and `{}`
  are branches with empty bodies, not leaves. A leaf is a text item, and its
  kind does not depend on how many children it has.
- The document wrapper has no heading and cannot be collapsed: the source puts
  no `<details>` around it.
- `buildNode` applied directly to a text node gives the leaf `#text`. Only the
  element's child loop trims text (app/static/app.js:60-66, 78).

## Model

| member | source | states |
|---|---|---|
| `JsonTree.IsContainer` | app/static/app.js:14 | holds exactly for arrays and objects; `null` is not a container |
| `JsonTree.KeyPrefix` | app/static/app.js:19 | the prefix is empty exactly at the root; otherwise it is the key's text (the decimal index, or the property name) followed by `: ` |
| `JsonTree.ScalarText` | app/static/app.js:27 | `String(value)`: `null`, `true`/`false`, the string itself, or the number's canonical decimal text (`IntToString`), which reads back as the number |
| `JsonTree.NodeLabel` | app/static/app.js:19-27 | the heading of a value under a key: the key prefix, then the type name for a container or the scalar text otherwise |
| `JsonTree.LabelParts` | app/static/app.js:19-27 | a label is the bare tail at the root, the decimal index and `: ` before the tail in an array, the property name and `: ` before it in an object; an array's label ends in `Array` and an object's in `Object` |
| `JsonTree.TypeName` | app/static/app.js:18 | `Array` exactly for arrays, `Object` for objects |
| `JsonTree.Entries` | app/static/app.js:22 | a scalar has no entries; an array has one per element and an object one per property |
| `JsonTree.EntryAt` | app/static/app.js:22 | entry i of an array is `[i, items[i]]`; entry i of an object is its i-th name and value |
| `JsonTree.Build` | app/static/app.js:12-30 | a scalar gives a text leaf, and a container gives a branch, never a bare wrapper; a container's branch starts closed and has exactly one child per entry |
| `JsonTree.BuildHeading` | app/static/app.js:14-28 | the heading of `build(key, v)` is the key prefix (`key: `, or nothing at the root) followed by `Array` or `Object` for a container, or by `String(v)` for a scalar |
| `JsonTree.BuildItems` | app/static/app.js:22-23 | array elements give exactly one child each |
| `JsonTree.BuildFields` | app/static/app.js:22-23 | object entries give exactly one child each |
| `JsonTree.JsonForest` | app/static/app.js:31-38 | a root container gives one top-level item per entry, in order, with no node of its own; a root scalar gives exactly one leaf whose text has no key prefix |
| `JsonTree.BuildItemsAt` | app/static/app.js:22-23 | element i of the children built from index `from` on is `build(from + i, items[i])` |
| `JsonTree.BuildFieldsAt` | app/static/app.js:22-23 | child i of an object is `build(name_i, value_i)` |
| `JsonTree.ChildrenAreEntries` | app/static/app.js:14-24 | child i of any container's branch is `build` applied to entry i of `Entries` |
| `JsonTree.ChildAt` | app/static/app.js:22-23 | child i of a container's branch is `build` of entry i |
| `JsonTree.ArrayChildAt` | app/static/app.js:22-23 | child i of an array's branch is `build(i, items[i])` |
| `JsonTree.ObjectChildAt` | app/static/app.js:22-23 | child i of an object's branch is `build` of its i-th name and value |
| `JsonTree.ArrayChildKeys` | app/static/app.js:19-22 | array children are keyed 0..n-1: child i is headed by the decimal text of i, then `: `, then the unkeyed label |
| `JsonTree.ForestIsRootBody` | app/static/app.js:33-35 | the top-level list of a root container is exactly the body its own branch would have |
| `JsonTree.ForestAt` | app/static/app.js:33-35 | item i of a root container's top-level list is `build` of entry i |
| `JsonTree.ForestStep` | app/static/app.js:34-35 | each pass of the top-level `forEach` extends the list by the item of the next entry |
| `JsonTree.EmptyContainers` | app/static/app.js:14-24 | `[]` and `{}` give branches with zero children, which differ from each other only in their type name |
| `JsonTree.BuildCollapsed` | app/static/app.js:16 | every `<details>` in the tree of any value starts closed |
| `JsonTree.ItemsCollapsed` | app/static/app.js:16 | every branch under an array's children starts closed |
| `JsonTree.FieldsCollapsed` | app/static/app.js:16 | every branch under an object's children starts closed |
| `JsonTree.ForestCollapsed` | app/static/app.js:31-38 | every branch of the top-level list starts closed |
| `JsonTree.RenderedSize` | app/static/app.js:12-30 | the tree of a value has exactly one item per value in the JSON tree |
| `JsonTree.ItemsSize` | app/static/app.js:22-23 | an array's children hold one item per value below the array |
| `JsonTree.FieldsSize` | app/static/app.js:22-23 | an object's children hold one item per value below the object |
| `JsonTree.ForestSize` | app/static/app.js:31-38 | the top-level list holds one item per value except a root container, or exactly one for a root scalar |
| `JsonTree.PreorderLabels` | app/static/app.js:12-30 | the headings read in depth-first pre-order are the labels of the JSON positions in source order |
| `JsonTree.ItemsLabels` | app/static/app.js:22-23 | the pre-order headings of an array's children follow its elements in index order |
| `JsonTree.FieldsLabels` | app/static/app.js:22-23 | the pre-order headings of an object's children follow its entries in order |
| `JsonTree.PositionsCount` | app/static/app.js:12-30 | the source positions enumerated in pre-order number exactly the values of the tree |
| `JsonTree.ItemPositionsCount` | app/static/app.js:22-23 | the positions below an array number its values |
| `JsonTree.FieldPositionsCount` | app/static/app.js:22-23 | the positions below an object number its values |
| `JsonTree.ForestLabels` | app/static/app.js:31-38 | the top-level headings are all the source labels except the root container's own, or the bare text of a root scalar |
| `JsonTree.SmallIndexLeaves` | app/static/app.js:19-27 | `1`, `"x"` and `null` at indices 0, 1 and 2 give the leaves `0: 1`, `1: x` and `2: null` |
| `JsonTree.NestedArrayItems` | app/static/app.js:22-27 | the array `[1, "x", null]` gives the leaves `0: 1`, `1: x`, `2: null`, in that order |
| `JsonTree.NestedArrayExample` | app/static/app.js:10-40 | `{"a": [1, "x", null]}` gives one branch `a: Array` with leaves `0: 1`, `1: x`, `2: null` |
| `JsonTree.NatToString` | app/static/app.js:19 | an index is rendered as non-empty decimal digits with no leading zero |
| `JsonTree.NatToStringRoundTrip` | app/static/app.js:19 | reading the rendered digits back gives the index, so distinct indices get distinct keys |
| `JsonTree.IntToString` | app/static/app.js:27 | an integer is written in canonical decimal form: a minus sign exactly for negatives, then non-empty digits with no leading zero |
| `JsonTree.IntToStringRoundTrip` | app/static/app.js:27 | reading the rendered text back gives the number |
| `XmlTree.IsSpace` | app/static/app.js:61 | the characters `trim()` strips: the ECMAScript WhiteSpace and LineTerminator code points |
| `XmlTree.TrimSetExamples` | app/static/app.js:61 | space, tab, CR, LF, no-break space, byte order mark, ideographic space and line separator are stripped; `a`, the zero-width space, NEL and U+180E are not |
| `XmlTree.LeadingSpace` | app/static/app.js:61 | the count of leading white-space characters: all of them are white space, and the next one, if any, is not |
| `XmlTree.TrimStart` | app/static/app.js:61 | the result is the suffix of the input after its leading white space, and starts with a non-space |
| `XmlTree.TrimEnd` | app/static/app.js:61 | the result is the prefix of the input before its trailing white space, and ends with a non-space |
| `XmlTree.Trim` | app/static/app.js:61 | the result is empty exactly when the text is all white space, and otherwise begins and ends with a non-space |
| `XmlTree.TrimIsSlice` | app/static/app.js:61 | what `trim()` keeps is one contiguous slice of the text, with only white space before and after it |
| `XmlTree.StripBoth` | app/static/app.js:61 | stripping a white-space prefix, then a white-space suffix, leaves a slice framed by white space, which is empty exactly for blank text |
| `XmlTree.BuildNode` | app/static/app.js:43-81 | an element, and nothing else, gives a branch headed `<name>` that starts closed; a document gives a wrapper whose single child is `buildNode` of its document element; any other node gives a leaf holding its `nodeName` |
| `XmlTree.NodeName` | app/static/app.js:49 | `nodeName`: the tag name of an element, `#text` for text, `#document` for a document, the node's own name otherwise |
| `XmlTree.AttrLeaves` | app/static/app.js:52-57 | one leaf per attribute, in attribute order, reading `@name: value` |
| `XmlTree.TextItems` | app/static/app.js:60-66 | a text child yields nothing when all white space, and otherwise the single leaf `#text: ` and its trimmed text |
| `XmlTree.ChildItems` | app/static/app.js:60-68 | one pass of the child loop yields at most one item, and none exactly for a blank text child |
| `XmlTree.RenderChild` | app/static/app.js:60-68 | the loop's item for a kept child: `#text: ` and the trimmed text for a text node, `buildNode` of any other node |
| `XmlTree.RenderChildVsBuildNode` | app/static/app.js:60-68 | the loop's item equals `buildNode` of the child exactly when the child is not text; a text child shows `#text: ` and its trimmed text, not `buildNode`'s `#text` |
| `XmlTree.RenderAll` | app/static/app.js:59-70 | the items of a list of kept children, one per child |
| `XmlTree.RenderAllAt` | app/static/app.js:59-70 | item j is the item of kept child j |
| `XmlTree.ChildItemsKept` | app/static/app.js:60-68 | one pass yields nothing for a blank text child and the child's item otherwise |
| `XmlTree.BuildChildren` | app/static/app.js:59-70 | the child loop yields no more items than there are child nodes |
| `XmlTree.NoTextChildren` | app/static/app.js:59-70 | when no child is a text node, the loop yields exactly one item per child |
| `XmlTree.Kept` | app/static/app.js:59-66 | the kept children contain no blank text node and are no more than the children |
| `XmlTree.KeptMembers` | app/static/app.js:60-66 | a child node is kept exactly when it is not a blank text node |
| `XmlTree.ChildrenAreKept` | app/static/app.js:59-70 | the child loop yields exactly `RenderAll` of the kept children: one item per kept child, in document order, a `#text:` leaf for text and `buildNode` otherwise |
| `XmlTree.ElementLayout` | app/static/app.js:45-72 | an element's branch is headed `<name>`, starts closed, and lists first one `@name: value` leaf per attribute in order, then one item per kept child in order |
| `XmlTree.TextChildTrimmed` | app/static/app.js:60-65 | a kept text child shows as `#text: ` followed by its trimmed text, which is non-empty and has no space at either end |
| `XmlTree.AttrLeavesBranches` | app/static/app.js:52-58 | attribute items are leaves, so they add no branch and are trivially collapsed |
| `XmlTree.BranchPerElement` | app/static/app.js:43-81 | the rendered tree has exactly one branch per element node |
| `XmlTree.ChildrenBranches` | app/static/app.js:59-70 | the child loop adds exactly one branch per element among and below the children; text children add none |
| `XmlTree.HeadBranches` | app/static/app.js:60-68 | one pass of the child loop adds one branch per element in that child's subtree |
| `XmlTree.XmlCollapsed` | app/static/app.js:47 | every `<details>` in the rendered XML tree starts closed |
| `XmlTree.ChildrenCollapsed` | app/static/app.js:47 | every branch produced by the child loop starts closed |
| `XmlTree.HeadCollapsed` | app/static/app.js:60-68 | every branch one pass of the child loop adds starts closed |
| `XmlTree.TrimExamples` | app/static/app.js:61 | `"  "` trims to empty and `"hi"` stays `"hi"` |
| `XmlTree.HiTrimmed` | app/static/app.js:61 | `"hi"` has no white space to strip |
| `XmlTree.TextItemsExamples` | app/static/app.js:60-66 | a blank text child contributes nothing, and `hi` contributes the leaf `#text: hi` |
| `XmlTree.BlankOnlyChild` | app/static/app.js:45-72 | `<name>` whose only child is blank text gives the branch `<name>` with no items |
| `XmlTree.TextOnlyChild` | app/static/app.js:45-72 | `<name>` whose only child is non-blank text gives the branch `<name>` with the single leaf `#text: ` and the trimmed text |
| `XmlTree.TwoElementChildren` | app/static/app.js:59-70 | two element children yield their two `buildNode` items, in order |
| `XmlTree.WithAttributeAndTwoElements` | app/static/app.js:45-72 | an element with one attribute and two element children lists the `@name: value` leaf, then the two children's items |
| `XmlTree.AttributeAndTwoChildren` | app/static/app.js:45-72 | `<r k="v"><c>blank</c><c>text</c></r>` gives `<r>` with `@k: v`, an empty `<c>` branch, and a `<c>` branch holding `#text: ` and the trimmed text |
| `XmlTree.CommentChildExample` | app/static/app.js:67-68 | a comment child is not skipped: it shows as a `#comment` leaf |
| `SafeParse.ElementsByTagName` | app/static/app.js:6 | every element the scan returns is an element with the searched tag name |
| `SafeParse.InSubtree` | app/static/app.js:6 | the scan of a subtree returns only elements with the searched name |
| `SafeParse.InSubtrees` | app/static/app.js:6 | the scan of a child list returns only elements with the searched name |
| `SafeParse.InSubtreeFinds` | app/static/app.js:6 | the scan of a subtree is non-empty exactly when the subtree holds an element with that name |
| `SafeParse.InSubtreesFinds` | app/static/app.js:6 | the scan of a child list is non-empty exactly when some child's subtree holds such an element |
| `SafeParse.MarkerScan` | app/static/app.js:6 | `getElementsByTagName(name).length` is non-zero exactly when some element below the node has that name |
| `SafeParse.ParseXmlSafe` | app/static/app.js:2-9 | the result is nothing exactly when the parser throws or a `parsererror` element occurs anywhere in the parsed document; otherwise it is that document, unchanged |
| `Mount.Container.Clear` | app/static/app.js:11 | after `innerHTML = ''` the container has no children |
| `Mount.Container.Append` | app/static/app.js:39 | `appendChild` adds its argument after the existing children and changes nothing else |
| `Mount.Container.RenderJsonTree` | app/static/app.js:10-40 | afterwards the container holds exactly one `tree-root` list, and the list is `JsonForest(obj)`, whatever the container held before |
| `Mount.Container.RenderXmlTree` | app/static/app.js:41-86 | afterwards the container holds exactly one `tree-root` list holding `buildNode(xmlDoc)`, whatever the container held before |
| `Mount.RenderJsonTwice` | app/static/app.js:10-40 | rendering the same value a second time leaves the container exactly as the first render left it |
| `Mount.RenderXmlTwice` | app/static/app.js:41-86 | rendering the same document a second time leaves the container exactly as the first render left it |

## Left out

- The XML parsing done by `DOMParser.parseFromString` is a host facility. `ParseXmlSafe` takes it as a function parameter that either throws or returns a node tree. Only the try/catch and the marker scan are modelled.
- Numbers are modelled as integers. JSON numbers are double-precision floats, and `String()` on fractions, exponents, `-0` or very large values is not modelled.
- `Object.entries` lists integer-like keys first, in ascending order. Objects are modelled as sequences of entries in their iteration order, so that reordering is not captured. Neither is the merging of duplicate keys.
- DOM element creation, the `tree-root` class name and the markup of previous container content are not modelled. The constructor `Mount.Content.Markup` stands for any earlier child.
- Cyclic or unboundedly deep inputs are not modelled, because datatypes are finite. Stack exhaustion on very deep trees is not modelled either.
- A document without a root element is not modelled. `buildNode(null)` would throw there. In the model a `Document` always has a root node. `renderXmlTree(null, c)` is not modelled either: the source clears the container and then throws at `node.nodeType`, leaving it empty (app/static/app.js:42-45). The model's node parameter cannot be null.
- Tag names are compared as whole strings. Namespaces and prefixes in `getElementsByTagName` matching are not modelled.
- SafeParse.ElementsByTagName: the model proves only two facts. The result holds only elements with the name, and it is non-empty exactly when such an element exists (`MarkerScan`). That it lists every such element in document order is not proved, since the source only tests whether the length is zero.
- The server side (`app/app.py`: routing, environment, status codes, size checks) and the conversion wrappers (`app/converters.py`, over `json` and `xmltodict`) are not part of this model. They are I/O plumbing and calls into libraries.
- JavaScript strings are sequences of UTF-16 code units, and `JSON.parse` accepts lone surrogates such as `"\ud800"`. A Dafny `string` holds Unicode scalar values only, so JSON strings or XML text with unpaired surrogates cannot be represented, and the model does not cover them.
- `trim()` is modelled with the ECMAScript WhiteSpace and LineTerminator code points. The space-separator set is written out by hand, so later Unicode additions to that category are not tracked.
