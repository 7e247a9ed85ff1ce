/**
 The container element both renderers draw into: `renderJsonTree(obj, container)`
 (app/static/app.js:10-40) and `renderXmlTree(xmlDoc, container)`
 (app/static/app.js:41-86) empty it and then attach one `<ul class="tree-root">`.
 */
module Mount {
  import opened RenderTree
  import JsonTree
  import XmlTree

  /** A child of the container: whatever was there before, or a `tree-root` list. */
  datatype Content = Markup(html: string) | TreeRoot(items: seq<RenderNode>)

  class Container {
    /** The container's child nodes, in order. */
    var children: seq<Content>

    constructor (initial: seq<Content>)
      ensures children == initial
    {
      children := initial;
    }

    /** `container.innerHTML = ''` */
    method Clear()
      modifies this
      ensures children == []
    {
      children := [];
    }

    /** `container.appendChild(c)` */
    method Append(c: Content)
      modifies this
      ensures children == old(children) + [c]
    {
      children := children + [c];
    }

    /** `renderJsonTree(obj, this)`: whatever was shown before is replaced by the one list `JsonForest(obj)`. */
    method RenderJsonTree(obj: JsonTree.JValue)
      modifies this
      ensures children == [TreeRoot(JsonTree.JsonForest(obj))]
    {
      Clear();
      var rootUl: seq<RenderNode> := [];
      if JsonTree.IsContainer(obj) {
        var entries := JsonTree.Entries(obj);
        ghost var forest := JsonTree.JsonForest(obj);
        assert |forest| == |entries|;
        var i := 0;
        while i < |entries|
          invariant 0 <= i <= |entries|
          invariant rootUl == forest[..i]
          invariant children == []
        {
          JsonTree.ForestStep(obj, i);
          rootUl := rootUl + [JsonTree.Build(entries[i].0, entries[i].1)];
          i := i + 1;
        }
        assert forest[..i] == forest;
      } else {
        rootUl := [JsonTree.Build(JsonTree.NoKey, obj)];
      }
      assert rootUl == JsonTree.JsonForest(obj);
      Append(TreeRoot(rootUl));
    }

    /** `renderXmlTree(xmlDoc, this)`: whatever was shown before is replaced by the one list holding `buildNode(xmlDoc)`. */
    method RenderXmlTree(xmlDoc: XmlTree.XNode)
      modifies this
      ensures children == [TreeRoot([XmlTree.BuildNode(xmlDoc)])]
    {
      Clear();
      var rootUl := [XmlTree.BuildNode(xmlDoc)];
      Append(TreeRoot(rootUl));
    }
  }

  /** Rendering the same value twice leaves the container exactly as the first render did. */
  method RenderJsonTwice(c: Container, obj: JsonTree.JValue) returns (afterFirst: seq<Content>)
    modifies c
    ensures afterFirst == c.children
    ensures c.children == [TreeRoot(JsonTree.JsonForest(obj))]
  {
    c.RenderJsonTree(obj);
    afterFirst := c.children;
    c.RenderJsonTree(obj);
  }

  /** Rendering the same document twice leaves the container exactly as the first render did. */
  method RenderXmlTwice(c: Container, xmlDoc: XmlTree.XNode) returns (afterFirst: seq<Content>)
    modifies c
    ensures afterFirst == c.children
    ensures c.children == [TreeRoot([XmlTree.BuildNode(xmlDoc)])]
  {
    c.RenderXmlTree(xmlDoc);
    afterFirst := c.children;
    c.RenderXmlTree(xmlDoc);
  }
}
