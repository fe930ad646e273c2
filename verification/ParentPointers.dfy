/** Parent pointers after a tree has been read: set again from the top down. */
module ParentPointers {
  import opened Options
  import opened AstJson

  /** The children that the attributes of a node list; a leaf has none, and has no list. */
  function Children(attributes: seq<Entry>): Option<seq<Data>> {
    match Get(attributes, "children")
    case Some(Sequence(items)) => Some(items)
    case _ => None
  }

  function ChildData(d: Data): seq<Data>
    requires d.Node?
  {
    match Children(d.attributes)
    case Some(items) => items
    case None => []
  }

  lemma {:induction false} GetIsSmaller(attributes: seq<Entry>, key: string)
    ensures Get(attributes, key).Some? ==>
              exists i :: 0 <= i < |attributes| && attributes[i].data == Get(attributes, key).value
  {
    if attributes != [] && attributes[0].key != key {
      GetIsSmaller(attributes[1..], key);
    }
  }

  /** A node with a list of nodes for children, or without children. */
  predicate IsTree(d: Data)
    decreases d
  {
    d.Node? && match Get(d.attributes, "children")
               case Some(Sequence(items)) =>
                 (GetIsSmaller(d.attributes, "children"); forall i :: 0 <= i < |items| ==> IsTree(items[i]))
               case Some(Null) => true
               case _ => false
  }

  /** A node of the tree, with what was read for it; only its parent pointer changes here. */
  class TreeNode {
    const data: Data
    const children: seq<TreeNode>
    const isLeaf: bool
    var parent: TreeNode?
    ghost const repr: set<TreeNode>
    ghost const height: nat

    /** The nodes below form a tree. */
    ghost predicate Shape()
      decreases height
    {
      && this in repr && (isLeaf ==> children == [])
      && (forall i :: 0 <= i < |children| ==>
           children[i] in repr && children[i].repr <= repr && this !in children[i].repr && children[i].height < height)
      && (forall i, j :: 0 <= i < j < |children| ==> children[i].repr !! children[j].repr)
      && (forall i :: 0 <= i < |children| ==> children[i].height < height && children[i].Shape())
    }

    /** The nodes below are those that the data lists. */
    ghost predicate Read()
      requires Shape()
      decreases height
    {
      && IsTree(data) && (isLeaf <==> Children(data.attributes) == None)
      && |children| == |ChildData(data)|
      && forall i :: 0 <= i < |children| ==> children[i].data == ChildData(data)[i] && children[i].Read()
    }

    /** Every node below points to the node that it is a child of. */
    ghost predicate ParentsRight()
      requires Shape()
      reads repr
      decreases height
    {
      forall i :: 0 <= i < |children| ==>
        children[i].Shape() && children[i].parent == this && children[i].ParentsRight()
    }

    /** A node over trees; its parent is not known, as after reading. */
    constructor (data: Data, children: seq<TreeNode>)
      requires data.Node? && IsTree(data)
      requires forall i :: 0 <= i < |children| ==> children[i].Shape() && children[i].Read()
      requires |children| == |ChildData(data)|
      requires forall i :: 0 <= i < |children| ==> children[i].data == ChildData(data)[i]
      requires forall i, j :: 0 <= i < j < |children| ==> children[i].repr !! children[j].repr
      ensures Shape() && Read() && parent == null && this.children == children && this.data == data
      ensures fresh(this)
      ensures forall o :: o in repr ==> o == this || exists i :: 0 <= i < |children| && o in children[i].repr
    {
      hide IsTree, TreeNode.Shape, TreeNode.Read, Children;
      this.data, this.children, this.isLeaf, parent := data, children, Children(data.attributes) == None, null;
      repr := {this} + set i, o | 0 <= i < |children| && o in children[i].repr :: o;
      height := Tallest(children) + 1;
      new;
      TallestIsMax(children);
      InOwnTrees(children);
      LeafHasNone(data);
      IsShaped(this);
      HasRead(this);
    }
  }

  lemma InOwnTrees(nodes: seq<TreeNode>)
    requires forall i :: 0 <= i < |nodes| ==> nodes[i].Shape()
    ensures forall i :: 0 <= i < |nodes| ==> nodes[i] in nodes[i].repr
  {
  }

  lemma IsShaped(node: TreeNode)
    requires node in node.repr && (node.isLeaf ==> node.children == [])
    requires forall i :: 0 <= i < |node.children| ==> node.children[i].Shape() && node.children[i].height < node.height
    requires forall i :: 0 <= i < |node.children| ==>
               node.children[i] in node.repr && node.children[i].repr <= node.repr && node !in node.children[i].repr
    requires forall i, j :: 0 <= i < j < |node.children| ==> node.children[i].repr !! node.children[j].repr
    ensures node.Shape()
  {
  }

  lemma HasRead(node: TreeNode)
    requires node.Shape() && IsTree(node.data) && (node.isLeaf <==> Children(node.data.attributes) == None)
    requires |node.children| == |ChildData(node.data)|
    requires forall i :: 0 <= i < |node.children| ==>
               node.children[i].Shape() && node.children[i].Read() && node.children[i].data == ChildData(node.data)[i]
    ensures node.Read()
  {
    hide IsTree, TreeNode.Shape, Children;
  }

  lemma LeafHasNone(d: Data)
    requires d.Node?
    ensures Children(d.attributes) == None ==> ChildData(d) == []
  {
  }

  /** The nodes for what was read. */
  method Build(d: Data) returns (node: TreeNode)
    requires IsTree(d)
    ensures node.Shape() && node.Read() && node.data == d && node.parent == null && fresh(node.repr)
    decreases d
  {
    ChildrenAreTrees(d);
    hide IsTree;
    var children: seq<TreeNode> := [];
    var items, k := ChildData(d), 0;
    while k < |items|
      invariant k == |children| <= |items|
      invariant forall i :: 0 <= i < k ==> children[i].Shape() && children[i].Read() && children[i].data == items[i]
      invariant forall i :: 0 <= i < k ==> fresh(children[i].repr)
      invariant forall i, j :: 0 <= i < j < k ==> children[i].repr !! children[j].repr
    {
      var child := Build(items[k]);
      children := children + [child];
      k := k + 1;
    }
    node := new TreeNode(d, children);
  }

  lemma ChildrenAreTrees(d: Data)
    requires IsTree(d)
    ensures forall i :: 0 <= i < |ChildData(d)| ==> IsTree(ChildData(d)[i]) && ChildData(d)[i] < d
  {
    GetIsSmaller(d.attributes, "children");
  }

  /** Read a stored tree and set the parents again. */
  method Load(j: Json) returns (node: Option<TreeNode>)
    ensures node.Some? <==> Decode(j).Some? && IsTree(Decode(j).value)
    ensures node.Some? ==> node.value.Shape() && node.value.Read() && node.value.data == Decode(j).value
    ensures node.Some? ==> node.value.parent == null && node.value.ParentsRight()
  {
    var d := Decode(j);
    if d.None? || !IsTree(d.value) {
      return None;
    }
    var root := Build(d.value);
    var restore := new RestoreParents();
    restore.Visit(root);
    node := Some(root);
  }

  /** What was stored comes back, with every child under its parent, if and only if it is readable. */
  method StoreAndLoad(d: Data) returns (node: Option<TreeNode>)
    requires IsTree(d)
    ensures node.Some? && node.value.data == d <==> Readable(d)
    ensures node.Some? ==>
              node.value.Shape() && node.value.Read() && node.value.parent == null && node.value.ParentsRight()
  {
    RoundTrip(d);
    node := Load(Encode(d));
  }

  ghost function Tallest(nodes: seq<TreeNode>): nat {
    if nodes == [] then 0
    else
      var rest := Tallest(nodes[..|nodes| - 1]);
      if nodes[|nodes| - 1].height > rest then nodes[|nodes| - 1].height else rest
  }

  lemma {:induction false} TallestIsMax(nodes: seq<TreeNode>)
    ensures forall i :: 0 <= i < |nodes| ==> nodes[i].height <= Tallest(nodes)
  {
    if nodes != [] {
      TallestIsMax(nodes[..|nodes| - 1]);
    }
  }

  class RestoreParents {
    var stack: seq<TreeNode?>

    constructor ()
      ensures stack == [null]
    {
      stack := [null];
    }

    /** The parent is on top of the stack; below a node, the node itself is. */
    method Visit(node: TreeNode)
      requires stack != [] && node.Shape()
      modifies this, node.repr
      ensures stack == old(stack)
      ensures node.parent == stack[|stack| - 1] && node.ParentsRight()
      decreases node.height
    {
      node.parent := stack[|stack| - 1];
      if node.isLeaf {
        return;
      }
      stack := stack + [node];
      var i := 0;
      while i < |node.children|
        invariant i <= |node.children| && stack == old(stack) + [node] && node.parent == old(stack)[|old(stack)| - 1]
        invariant forall j :: 0 <= j < i ==> node.children[j].parent == node && node.children[j].ParentsRight()
      {
        assert forall j :: 0 <= j < i ==> node.children[j].repr !! node.children[i].repr;
        assert forall j :: 0 <= j < i ==> node.children[j] in node.children[j].repr;
        Visit(node.children[i]);
        i := i + 1;
      }
      stack := stack[..|stack| - 1];
    }
  }
}
