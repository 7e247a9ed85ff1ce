/**
 The JSON side of the viewer: `build(key, value)` inside `renderJsonTree`
 (app/static/app.js:12-30) and the choice of the top-level list
 (app/static/app.js:31-38).
 */
module JsonTree {
  import opened RenderTree

  /** A decoded JSON value. Objects keep their entries in iteration order. */
  datatype JValue =
    | JNull
    | JBool(b: bool)
    | JNum(n: int)
    | JStr(s: string)
    | JArr(items: seq<JValue>)
    | JObj(fields: seq<Member>)

  /** One property of an object: its name and its value. */
  datatype Member = Member(name: string, value: JValue)

  /** The `key` argument of `build`: `undefined` at the root, an array index, or a property name. */
  datatype Key = NoKey | Index(i: nat) | Name(s: string)

  /** `value !== null && typeof value === 'object'` */
  predicate IsContainer(v: JValue)
  {
    v.JArr? || v.JObj?
  }

  // ---------------------------------------------------------------------------
  // Decimal text of numbers (what `String(n)` and `i + ': '` produce)
  // ---------------------------------------------------------------------------

  predicate IsDigit(c: char)
  {
    '0' <= c <= '9'
  }

  predicate AllDigits(s: string)
  {
    forall i :: 0 <= i < |s| ==> IsDigit(s[i])
  }

  function Digit(d: nat): (c: char)
    requires d < 10
    ensures IsDigit(c) && c as int - '0' as int == d
  {
    ('0' as int + d) as char
  }

  /** Decimal digits of `n`, most significant first, without leading zeros. */
  function NatToString(n: nat): (r: string)
    ensures |r| > 0 && AllDigits(r)
    ensures |r| > 1 ==> r[0] != '0'
  {
    if n < 10 then [Digit(n)] else NatToString(n / 10) + [Digit(n % 10)]
  }

  /** Reads decimal digits back into a number; the inverse of NatToString. */
  function ParseNat(s: string): nat
    requires AllDigits(s)
  {
    if s == [] then 0 else ParseNat(s[..|s| - 1]) * 10 + (s[|s| - 1] as int - '0' as int)
  }

  lemma {:induction false} NatToStringRoundTrip(n: nat)
    ensures ParseNat(NatToString(n)) == n
  {
    var s := NatToString(n);
    if n >= 10 {
      assert s[..|s| - 1] == NatToString(n / 10);
      NatToStringRoundTrip(n / 10);
    }
  }

  /** `String(n)` for an integer: an optional minus sign, then the digits. */
  function IntToString(n: int): (r: string)
    ensures |r| > 0
    ensures (r[0] == '-') <==> n < 0
    ensures n >= 0 ==> IsDigit(r[0])
    ensures AllDigits(r[1..])
    ensures var d := if n < 0 then r[1..] else r; |d| > 0 && (|d| > 1 ==> d[0] != '0')
  {
    if n < 0 then "-" + NatToString(-n) else NatToString(n)
  }

  function ParseInt(s: string): int
    requires |s| > 0 && AllDigits(s[1..])
    requires s[0] == '-' || IsDigit(s[0])
  {
    if s[0] == '-' then 0 - ParseNat(s[1..]) else ParseNat(s)
  }

  lemma IntToStringRoundTrip(n: int)
    ensures ParseInt(IntToString(n)) == n
  {
    NatToStringRoundTrip(if n < 0 then -n else n);
    if n < 0 {
      assert IntToString(n)[1..] == NatToString(-n);
    }
  }

  // ---------------------------------------------------------------------------
  // Labels
  // ---------------------------------------------------------------------------

  /** `key !== undefined ? key + ': ' : ''` */
  function KeyPrefix(k: Key): (r: string)
    ensures r == [] <==> k.NoKey?
    ensures !k.NoKey? ==> |r| >= 2 && r[|r| - 2..] == ": "
    ensures k.Index? ==> r[..|r| - 2] == NatToString(k.i)
    ensures k.Name? ==> r[..|r| - 2] == k.s
  {
    match k
    case NoKey => ""
    case Index(i) => NatToString(i) + ": "
    case Name(s) => s + ": "
  }

  /** `String(value)` for a scalar. */
  function ScalarText(v: JValue): (r: string)
    requires !IsContainer(v)
    ensures v.JNull? ==> r == "null"
    ensures v.JBool? ==> r == if v.b then "true" else "false"
    ensures v.JStr? ==> r == v.s
    ensures v.JNum? ==> r == IntToString(v.n)
    ensures v.JNum? ==> |r| > 0 && AllDigits(r[1..]) && (r[0] == '-' || IsDigit(r[0])) && ParseInt(r) == v.n
  {
    match v
    case JNull => "null"
    case JBool(b) => if b then "true" else "false"
    case JNum(n) => IntToStringRoundTrip(n); IntToString(n)
    case JStr(s) => s
  }

  /** `Array.isArray(value) ? 'Array' : 'Object'` */
  function TypeName(v: JValue): (r: string)
    requires IsContainer(v)
    ensures r == "Array" || r == "Object"
    ensures r == "Array" <==> v.JArr?
  {
    if v.JArr? then "Array" else "Object"
  }

  /** The heading the viewer shows for the value `v` reached under `k`. */
  function NodeLabel(k: Key, v: JValue): string
  {
    KeyPrefix(k) + (if IsContainer(v) then TypeName(v) else ScalarText(v))
  }

  /** A label is the key (the decimal index, the property name, or nothing at the root), then `: `, then the scalar text or the type name. */
  lemma LabelParts(k: Key, v: JValue)
    ensures var tail := if IsContainer(v) then TypeName(v) else ScalarText(v);
      && (k.NoKey? ==> NodeLabel(k, v) == tail)
      && (k.Index? ==> NodeLabel(k, v) == NatToString(k.i) + ": " + tail)
      && (k.Name? ==> NodeLabel(k, v) == k.s + ": " + tail)
    ensures v.JArr? ==> NodeLabel(k, v) == KeyPrefix(k) + "Array"
    ensures v.JObj? ==> NodeLabel(k, v) == KeyPrefix(k) + "Object"
  {
  }

  /** `[index, element]` pairs of an array, `Object.entries` of an object, nothing for a scalar. */
  function Entries(v: JValue): (r: seq<(Key, JValue)>)
    ensures !IsContainer(v) ==> r == []
    ensures v.JArr? ==> |r| == |v.items|
    ensures v.JObj? ==> |r| == |v.fields|
  {
    match v
    case JArr(items) => seq(|items|, i requires 0 <= i < |items| => (Index(i), items[i]))
    case JObj(fields) => seq(|fields|, i requires 0 <= i < |fields| => (Name(fields[i].name), fields[i].value))
    case _ => []
  }

  /** Entry `i` of an array is `[i, items[i]]`; entry `i` of an object is its `i`-th name and value. */
  lemma EntryAt(v: JValue, i: nat)
    requires i < |Entries(v)|
    ensures v.JArr? ==> Entries(v)[i] == (Index(i), v.items[i])
    ensures v.JObj? ==> Entries(v)[i] == (Name(v.fields[i].name), v.fields[i].value)
  {
  }

  // ---------------------------------------------------------------------------
  // build(key, value)
  // ---------------------------------------------------------------------------

  /** The `<li>` that `build(key, v)` returns. */
  function Build(key: Key, v: JValue): (r: RenderNode)
    ensures r.Leaf? <==> !IsContainer(v)
    ensures !r.Wrapper?
    ensures IsContainer(v) ==> !r.open && |r.body| == |Entries(v)|
    decreases v, 1
  {
    match v
    case JArr(items) => Branch(KeyPrefix(key) + "Array", false, BuildItems(items, 0))
    case JObj(fields) => Branch(KeyPrefix(key) + "Object", false, BuildFields(fields))
    case _ => Leaf(KeyPrefix(key) + ScalarText(v))
  }

  /** The heading of `build(key, v)`: the key prefix, then the type name of a container or the text of a scalar. */
  lemma BuildHeading(key: Key, v: JValue)
    ensures Heading(Build(key, v)) == NodeLabel(key, v)
    ensures Build(key, v).Leaf? ==> Build(key, v).text == KeyPrefix(key) + ScalarText(v)
    ensures Build(key, v).Branch? ==> Build(key, v).summary == KeyPrefix(key) + TypeName(v)
  {
  }

  /** `build(from + i, items[i])` for each element, appended in index order. */
  function BuildItems(items: seq<JValue>, from: nat): (r: seq<RenderNode>)
    ensures |r| == |items|
    decreases items, 0
  {
    if items == [] then [] else [Build(Index(from), items[0])] + BuildItems(items[1..], from + 1)
  }

  /** `build(name, value)` for each entry, appended in entry order. */
  function BuildFields(fields: seq<Member>): (r: seq<RenderNode>)
    ensures |r| == |fields|
    decreases fields, 0
  {
    if fields == [] then [] else [Build(Name(fields[0].name), fields[0].value)] + BuildFields(fields[1..])
  }

  /** The items of the top-level `<ul class="tree-root">`. */
  function JsonForest(v: JValue): (r: seq<RenderNode>)
    ensures IsContainer(v) ==> |r| == |Entries(v)|
    ensures IsContainer(v) ==> forall i :: 0 <= i < |r| ==>
              Heading(r[i]) == NodeLabel(Entries(v)[i].0, Entries(v)[i].1)
    ensures !IsContainer(v) ==> r == [Leaf(ScalarText(v))]
  {
    if IsContainer(v) then
      var entries := Entries(v);
      seq(|entries|, i requires 0 <= i < |entries| => Build(entries[i].0, entries[i].1))
    else
      assert KeyPrefix(NoKey) + ScalarText(v) == ScalarText(v);
      [Build(NoKey, v)]
  }

  // ---------------------------------------------------------------------------
  // Children are the entries, one each, in order
  // ---------------------------------------------------------------------------

  /** Child `i` of `BuildItems(items, from)` is `build(n, items[i])` for the key `n == from + i`. */
  lemma {:induction false} BuildItemsAt(items: seq<JValue>, from: nat, i: nat, n: nat)
    requires i < |items| && n == from + i
    ensures BuildItems(items, from)[i] == Build(Index(n), items[i])
  {
    if i > 0 {
      BuildItemsAt(items[1..], from + 1, i - 1, n);
      assert items[1..][i - 1] == items[i];
    }
  }

  lemma {:induction false} BuildFieldsAt(fields: seq<Member>, i: nat)
    requires i < |fields|
    ensures BuildFields(fields)[i] == Build(Name(fields[i].name), fields[i].value)
  {
    var rest := BuildFields(fields[1..]);
    if i > 0 {
      BuildFieldsAt(fields[1..], i - 1);
      assert fields[1..][i - 1] == fields[i];
      assert BuildFields(fields)[i] == rest[i - 1];
    }
  }

  /** Child `i` of a container's branch is `build` applied to entry `i`. */
  lemma ChildrenAreEntries(key: Key, v: JValue)
    requires IsContainer(v)
    ensures Build(key, v).Branch?
    ensures forall i :: 0 <= i < |Entries(v)| ==>
              Build(key, v).body[i] == Build(Entries(v)[i].0, Entries(v)[i].1)
  {
    forall i | 0 <= i < |Entries(v)|
      ensures Build(key, v).body[i] == Build(Entries(v)[i].0, Entries(v)[i].1)
    {
      ChildAt(key, v, i);
    }
  }

  lemma ChildAt(key: Key, v: JValue, i: nat)
    requires IsContainer(v) && i < |Entries(v)|
    ensures Build(key, v).body[i] == Build(Entries(v)[i].0, Entries(v)[i].1)
  {
    EntryAt(v, i);
    if v.JArr? {
      ArrayChildAt(key, v.items, i);
    } else {
      ObjectChildAt(key, v.fields, i);
    }
  }

  /** Child `i` of an array's branch is `build(i, items[i])`. */
  lemma ArrayChildAt(key: Key, items: seq<JValue>, i: nat)
    requires i < |items|
    ensures Build(key, JArr(items)).body[i] == Build(Index(i), items[i])
  {
    assert Build(key, JArr(items)).body == BuildItems(items, 0);
    BuildItemsAt(items, 0, i, i);
  }

  /** Child `i` of an object's branch is `build(name_i, value_i)`. */
  lemma ObjectChildAt(key: Key, fields: seq<Member>, i: nat)
    requires i < |fields|
    ensures Build(key, JObj(fields)).body[i] == Build(Name(fields[i].name), fields[i].value)
  {
    assert Build(key, JObj(fields)).body == BuildFields(fields);
    BuildFieldsAt(fields, i);
  }

  /** Array children are keyed by their indices 0, 1, ..., n-1. */
  lemma ArrayChildKeys(key: Key, items: seq<JValue>, i: nat)
    requires i < |items|
    ensures Build(key, JArr(items)).body[i] == Build(Index(i), items[i])
    ensures Heading(Build(key, JArr(items)).body[i]) == NatToString(i) + ": " + NodeLabel(NoKey, items[i])
  {
    ArrayChildAt(key, items, i);
    BuildHeading(Index(i), items[i]);
    var rest := if IsContainer(items[i]) then TypeName(items[i]) else ScalarText(items[i]);
    assert NodeLabel(NoKey, items[i]) == rest;
    assert NodeLabel(Index(i), items[i]) == (NatToString(i) + ": ") + rest;
  }

  /** The top-level list grows by one `build` per entry: its first `i + 1` items extend its first `i` by entry `i`'s item. */
  lemma ForestStep(v: JValue, i: nat)
    requires IsContainer(v) && i < |Entries(v)|
    ensures JsonForest(v)[..i + 1] == JsonForest(v)[..i] + [Build(Entries(v)[i].0, Entries(v)[i].1)]
  {
    var f := JsonForest(v);
    ForestAt(v, i);
    assert f[..i + 1] == f[..i] + [f[i]];
  }

  /** Item `i` of a root container's top-level list is `build` applied to entry `i`. */
  lemma ForestAt(v: JValue, i: nat)
    requires IsContainer(v) && i < |Entries(v)|
    ensures JsonForest(v)[i] == Build(Entries(v)[i].0, Entries(v)[i].1)
  {
  }

  /** A root container has no node of its own: the top-level list is exactly the branch body it would get. */
  lemma ForestIsRootBody(v: JValue)
    requires IsContainer(v)
    ensures JsonForest(v) == Build(NoKey, v).body
  {
    ChildrenAreEntries(NoKey, v);
  }

  /** `[]` and `{}` are branches with no children, told apart only by their type name. */
  lemma EmptyContainers(key: Key)
    ensures Build(key, JArr([])) == Branch(KeyPrefix(key) + "Array", false, [])
    ensures Build(key, JObj([])) == Branch(KeyPrefix(key) + "Object", false, [])
    ensures Build(key, JArr([])) != Build(key, JObj([]))
  {
    assert |KeyPrefix(key) + "Array"| != |KeyPrefix(key) + "Object"|;
  }

  // ---------------------------------------------------------------------------
  // Every branch starts collapsed
  // ---------------------------------------------------------------------------

  lemma {:induction false} BuildCollapsed(key: Key, v: JValue)
    ensures AllCollapsed(Build(key, v))
    decreases v, 1
  {
    match v
    case JArr(items) => ItemsCollapsed(items, 0);
    case JObj(fields) => FieldsCollapsed(fields);
    case _ =>
  }

  lemma {:induction false} ItemsCollapsed(items: seq<JValue>, from: nat)
    ensures AllCollapsedIn(BuildItems(items, from))
    decreases items, 0
  {
    if items != [] {
      var rest := BuildItems(items[1..], from + 1);
      assert ([Build(Index(from), items[0])] + rest)[1..] == rest;
      BuildCollapsed(Index(from), items[0]);
      ItemsCollapsed(items[1..], from + 1);
    }
  }

  lemma {:induction false} FieldsCollapsed(fields: seq<Member>)
    ensures AllCollapsedIn(BuildFields(fields))
    decreases fields, 0
  {
    if fields != [] {
      var rest := BuildFields(fields[1..]);
      assert ([Build(Name(fields[0].name), fields[0].value)] + rest)[1..] == rest;
      BuildCollapsed(Name(fields[0].name), fields[0].value);
      FieldsCollapsed(fields[1..]);
    }
  }

  lemma ForestCollapsed(v: JValue)
    ensures AllCollapsedIn(JsonForest(v))
  {
    if IsContainer(v) {
      ForestIsRootBody(v);
      BuildCollapsed(NoKey, v);
      var b := Build(NoKey, v);
      assert b.Branch? && AllCollapsed(b);
      assert AllCollapsedIn(b.body);
    } else {
      var f := JsonForest(v);
      assert f[1..] == [];
      assert AllCollapsed(f[0]);
    }
  }

  // ---------------------------------------------------------------------------
  // One rendered node per value
  // ---------------------------------------------------------------------------

  /** Number of values in a JSON tree, the value itself included. */
  function CountValues(v: JValue): nat
  {
    match v
    case JArr(items) => 1 + CountItems(items)
    case JObj(fields) => 1 + CountFields(fields)
    case _ => 1
  }

  function CountItems(items: seq<JValue>): nat
  {
    if items == [] then 0 else CountValues(items[0]) + CountItems(items[1..])
  }

  function CountFields(fields: seq<Member>): nat
  {
    if fields == [] then 0 else CountValues(fields[0].value) + CountFields(fields[1..])
  }

  lemma {:induction false} RenderedSize(key: Key, v: JValue)
    ensures Size(Build(key, v)) == CountValues(v)
    decreases v, 1
  {
    match v
    case JArr(items) => ItemsSize(items, 0);
    case JObj(fields) => FieldsSize(fields);
    case _ =>
  }

  lemma {:induction false} ItemsSize(items: seq<JValue>, from: nat)
    ensures SizeIn(BuildItems(items, from)) == CountItems(items)
    decreases items, 0
  {
    if items != [] {
      var rest := BuildItems(items[1..], from + 1);
      assert ([Build(Index(from), items[0])] + rest)[1..] == rest;
      RenderedSize(Index(from), items[0]);
      ItemsSize(items[1..], from + 1);
    }
  }

  lemma {:induction false} FieldsSize(fields: seq<Member>)
    ensures SizeIn(BuildFields(fields)) == CountFields(fields)
    decreases fields, 0
  {
    if fields != [] {
      var rest := BuildFields(fields[1..]);
      assert ([Build(Name(fields[0].name), fields[0].value)] + rest)[1..] == rest;
      RenderedSize(Name(fields[0].name), fields[0].value);
      FieldsSize(fields[1..]);
    }
  }

  /** The top-level list holds every value but a root container, or the one root scalar. */
  lemma ForestSize(v: JValue)
    ensures SizeIn(JsonForest(v)) == if IsContainer(v) then CountValues(v) - 1 else 1
  {
    if IsContainer(v) {
      ForestIsRootBody(v);
      RenderedSize(NoKey, v);
    } else {
      assert JsonForest(v)[1..] == [];
    }
  }

  // ---------------------------------------------------------------------------
  // Pre-order of the labels follows source order
  // ---------------------------------------------------------------------------

  /** Every position of a JSON tree, as (key, value), in depth-first source order. */
  function Positions(key: Key, v: JValue): seq<(Key, JValue)>
    decreases v, 1
  {
    [(key, v)] +
      match v
      case JArr(items) => ItemPositions(items, 0)
      case JObj(fields) => FieldPositions(fields)
      case _ => []
  }

  function ItemPositions(items: seq<JValue>, from: nat): seq<(Key, JValue)>
    decreases items, 0
  {
    if items == [] then [] else Positions(Index(from), items[0]) + ItemPositions(items[1..], from + 1)
  }

  function FieldPositions(fields: seq<Member>): seq<(Key, JValue)>
    decreases fields, 0
  {
    if fields == [] then [] else Positions(Name(fields[0].name), fields[0].value) + FieldPositions(fields[1..])
  }

  function LabelsOf(ps: seq<(Key, JValue)>): seq<string>
  {
    if ps == [] then [] else [NodeLabel(ps[0].0, ps[0].1)] + LabelsOf(ps[1..])
  }

  lemma {:induction false} LabelsOfAppend(a: seq<(Key, JValue)>, b: seq<(Key, JValue)>)
    ensures LabelsOf(a + b) == LabelsOf(a) + LabelsOf(b)
  {
    if a != [] {
      assert (a + b)[1..] == a[1..] + b;
      LabelsOfAppend(a[1..], b);
    } else {
      assert a + b == b;
    }
  }

  /** The rendered headings, read in pre-order, are the labels of the source positions in source order. */
  lemma {:induction false} PreorderLabels(key: Key, v: JValue)
    ensures Labels(Build(key, v)) == LabelsOf(Positions(key, v))
    decreases v, 1
  {
    var tail := match v
      case JArr(items) => ItemPositions(items, 0)
      case JObj(fields) => FieldPositions(fields)
      case _ => [];
    assert Positions(key, v) == [(key, v)] + tail;
    LabelsOfAppend([(key, v)], tail);
    match v
    case JArr(items) => ItemsLabels(items, 0);
    case JObj(fields) => FieldsLabels(fields);
    case _ =>
  }

  lemma {:induction false} ItemsLabels(items: seq<JValue>, from: nat)
    ensures LabelsIn(BuildItems(items, from)) == LabelsOf(ItemPositions(items, from))
    decreases items, 0
  {
    if items != [] {
      var rest := BuildItems(items[1..], from + 1);
      assert ([Build(Index(from), items[0])] + rest)[1..] == rest;
      PreorderLabels(Index(from), items[0]);
      ItemsLabels(items[1..], from + 1);
      LabelsOfAppend(Positions(Index(from), items[0]), ItemPositions(items[1..], from + 1));
    }
  }

  lemma {:induction false} FieldsLabels(fields: seq<Member>)
    ensures LabelsIn(BuildFields(fields)) == LabelsOf(FieldPositions(fields))
    decreases fields, 0
  {
    if fields != [] {
      var rest := BuildFields(fields[1..]);
      assert ([Build(Name(fields[0].name), fields[0].value)] + rest)[1..] == rest;
      PreorderLabels(Name(fields[0].name), fields[0].value);
      FieldsLabels(fields[1..]);
      LabelsOfAppend(Positions(Name(fields[0].name), fields[0].value), FieldPositions(fields[1..]));
    }
  }

  /** There is one position per value. */
  lemma {:induction false} PositionsCount(key: Key, v: JValue)
    ensures |Positions(key, v)| == CountValues(v)
    decreases v, 1
  {
    match v
    case JArr(items) => ItemPositionsCount(items, 0);
    case JObj(fields) => FieldPositionsCount(fields);
    case _ =>
  }

  lemma {:induction false} ItemPositionsCount(items: seq<JValue>, from: nat)
    ensures |ItemPositions(items, from)| == CountItems(items)
    decreases items, 0
  {
    if items != [] {
      PositionsCount(Index(from), items[0]);
      ItemPositionsCount(items[1..], from + 1);
    }
  }

  lemma {:induction false} FieldPositionsCount(fields: seq<Member>)
    ensures |FieldPositions(fields)| == CountFields(fields)
    decreases fields, 0
  {
    if fields != [] {
      PositionsCount(Name(fields[0].name), fields[0].value);
      FieldPositionsCount(fields[1..]);
    }
  }

  /** At the top level the root container's own heading is the only one missing; a root scalar shows its bare text. */
  lemma ForestLabels(v: JValue)
    ensures LabelsIn(JsonForest(v)) ==
              if IsContainer(v) then LabelsOf(Positions(NoKey, v))[1..] else [ScalarText(v)]
  {
    if IsContainer(v) {
      ForestIsRootBody(v);
      PreorderLabels(NoKey, v);
    } else {
      assert JsonForest(v)[1..] == [];
    }
  }

  /** The scalars `1`, `"x"` and `null` at positions 0, 1 and 2 of an array render as the leaves `0: 1`, `1: x`, `2: null`. */
  lemma SmallIndexLeaves()
    ensures Build(Index(0), JNum(1)) == Leaf("0: 1")
    ensures Build(Index(1), JStr("x")) == Leaf("1: x")
    ensures Build(Index(2), JNull) == Leaf("2: null")
  {
    assert NatToString(0) == "0" && NatToString(1) == "1" && NatToString(2) == "2";
    assert ScalarText(JNum(1)) == "1";
  }

  /** The elements `[1, "x", null]` render as the leaves `0: 1`, `1: x`, `2: null`. */
  lemma NestedArrayItems()
    ensures BuildItems([JNum(1), JStr("x"), JNull], 0) == [Leaf("0: 1"), Leaf("1: x"), Leaf("2: null")]
  {
    var items := [JNum(1), JStr("x"), JNull];
    SmallIndexLeaves();
    assert items[1..] == [JStr("x"), JNull] && items[1..][1..] == [JNull] && items[1..][1..][1..] == [];
    assert BuildItems(items[1..][1..][1..], 3) == [];
    assert BuildItems(items[1..][1..], 2) == [Leaf("2: null")];
    assert BuildItems(items[1..], 1) == [Leaf("1: x"), Leaf("2: null")];
  }

  /** `{"a": [1, "x", null]}` renders as one branch `a: Array` with leaves `0: 1`, `1: x`, `2: null`. */
  lemma NestedArrayExample()
    ensures JsonForest(JObj([Member("a", JArr([JNum(1), JStr("x"), JNull]))])) ==
              [Branch("a: Array", false, [Leaf("0: 1"), Leaf("1: x"), Leaf("2: null")])]
  {
    var items := [JNum(1), JStr("x"), JNull];
    NestedArrayItems();
    var v := JObj([Member("a", JArr(items))]);
    assert Entries(v) == [(Name("a"), JArr(items))];
    assert Build(Name("a"), JArr(items)) == Branch("a: Array", false, BuildItems(items, 0));
  }
}
