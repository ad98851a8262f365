/**
 * The element model of the binary Merkle tree: the closed family of element
 * kinds, their domain-separation prefix bytes, the optional disclosure-path
 * marker every element carries, and the depth of a tree.
 *
 * Each element is an object. Its kind, payload and children are fixed when it
 * is constructed (the children are get-only properties); its path marker is a
 * field that `SetPathElement` overwrites. The payload (`Content`) is opaque
 * and stands here as the type parameter `C`.
 */
module Merkle {
  import opened Wrappers

  /** Prefix byte that the hash of each kind of element starts with. */
  datatype HashPrefix = Node | Leaf | NodeArray | NodeDict
  {
    function Byte(): (b: int)
    {
      match this
      case Node => 0
      case Leaf => 1
      case NodeArray => 7
      case NodeDict => 8
    }
  }

  /** The four prefixes are four different bytes. */
  lemma HashPrefixBytesDistinct(p: HashPrefix, q: HashPrefix)
    ensures p.Byte() == q.Byte() <==> p == q
  {
  }

  /**
   * A disclosure-path marker. `PathLeafElement` marks a disclosed leaf; every
   * other kind of path element (one that expects a sub-structure below it) is
   * `SubStructurePathElement`.
   */
  datatype PathElement = PathLeafElement | SubStructurePathElement

  /** A C# `int`. */
  newtype Int32 = x: int | -0x8000_0000 <= x < 0x8000_0000

  /** What an element is: one case per class of the family. */
  datatype Kind<C> =
    | NodeKind
    | SubTreeRootKind(content: C)
    | ArrayHeadKind(content: C, size: Int32)
    | DictHeadKind(content: C, size: Int32)
    | LeafKind(content: C)
    | EmptyLeafKind
  {
    /** The kinds that are `Node` or one of its subclasses, and so have children. */
    predicate IsNode() {
      NodeKind? || SubTreeRootKind? || ArrayHeadKind? || DictHeadKind?
    }
  }

  /** The exception `Leaf`'s constructor throws: the path expects a sub-structure where there is a leaf. */
  datatype StructureError = PathExpectsSubStructure

  /**
   * The guard of `Leaf`'s constructor: no path element, or a leaf path
   * element, is accepted; any other path element is refused.
   */
  function LeafPathCheck(pathElem: Option<PathElement>): (r: Outcome<StructureError>)
    ensures r.Pass? <==> pathElem == None || pathElem == Some(PathLeafElement)
    ensures r.Fail? ==> r.error == PathExpectsSubStructure
  {
    match pathElem
    case None => Pass
    case Some(p) => if p.PathLeafElement? then Pass else Fail(PathExpectsSubStructure)
  }

  class Element<C> {
    const kind: Kind<C>
    /** The children of a node kind; `null` for the leaf kinds (which have none). */
    const Left: Element?<C>
    const Right: Element?<C>
    /** The elements reachable from this one; it shrinks towards the leaves. */
    ghost const Repr: set<object>
    var pathElem: Option<PathElement>

    /** Children are strictly smaller than their parent, so the structure is acyclic. */
    ghost predicate Valid()
      decreases Repr
    {
      && this in Repr
      && (!kind.IsNode() ==> Left == null && Right == null)
      && (Left != null ==> Left.Repr < Repr && Left.Valid())
      && (Right != null ==> Right.Repr < Repr && Right.Valid())
    }

    /** Every node below (and including) this element has both children. */
    ghost predicate Complete()
      requires Valid()
      decreases Repr
    {
      kind.IsNode() ==>
        && Left != null && Right != null
        && Left.Complete() && Right.Complete()
    }

    /** `Node(left, right)`: a plain internal fork without a path element. */
    constructor Node(left: Element?<C>, right: Element?<C>)
      requires left != null ==> left.Valid()
      requires right != null ==> right.Valid()
      ensures Valid()
      ensures kind == NodeKind && Left == left && Right == right
      ensures pathElem == None
    {
      kind := NodeKind;
      Left, Right := left, right;
      Repr := {this} + (if left != null then left.Repr else {}) + (if right != null then right.Repr else {});
      pathElem := None;
    }

    /** `SubTreeRootNode(left, right, content, pathElem)`: any path element is stored. */
    constructor SubTreeRootNode(left: Element?<C>, right: Element?<C>, content: C, pathElem: Option<PathElement>)
      requires left != null ==> left.Valid()
      requires right != null ==> right.Valid()
      ensures Valid()
      ensures kind == SubTreeRootKind(content) && Left == left && Right == right
      ensures this.pathElem == pathElem
    {
      kind := SubTreeRootKind(content);
      Left, Right := left, right;
      Repr := {this} + (if left != null then left.Repr else {}) + (if right != null then right.Repr else {});
      new;
      SetPathElement(pathElem);
    }

    /** `ArrayHeadNode(left, right, content, size, pathElem)`: the size is stored as given. */
    constructor ArrayHeadNode(left: Element?<C>, right: Element?<C>, content: C, size: Int32, pathElem: Option<PathElement>)
      requires left != null ==> left.Valid()
      requires right != null ==> right.Valid()
      ensures Valid()
      ensures kind == ArrayHeadKind(content, size) && Left == left && Right == right
      ensures this.pathElem == pathElem
    {
      kind := ArrayHeadKind(content, size);
      Left, Right := left, right;
      Repr := {this} + (if left != null then left.Repr else {}) + (if right != null then right.Repr else {});
      new;
      SetPathElement(pathElem);
    }

    /** `DictHeadNode(left, right, content, size, pathElem)`: the size is stored as given. */
    constructor DictHeadNode(left: Element?<C>, right: Element?<C>, content: C, size: Int32, pathElem: Option<PathElement>)
      requires left != null ==> left.Valid()
      requires right != null ==> right.Valid()
      ensures Valid()
      ensures kind == DictHeadKind(content, size) && Left == left && Right == right
      ensures this.pathElem == pathElem
    {
      kind := DictHeadKind(content, size);
      Left, Right := left, right;
      Repr := {this} + (if left != null then left.Repr else {}) + (if right != null then right.Repr else {});
      new;
      SetPathElement(pathElem);
    }

    /** `Leaf(content, pathElem)` when it does not throw; `NewLeaf` covers the throw. */
    constructor Leaf(content: C, pathElem: Option<PathElement>)
      requires LeafPathCheck(pathElem).Pass?
      ensures Valid()
      ensures kind == LeafKind(content) && Left == null && Right == null
      ensures this.pathElem == pathElem
    {
      kind := LeafKind(content);
      Left, Right := null, null;
      Repr := {this};
      this.pathElem := None;
      new;
      if pathElem != None {
        SetPathElement(pathElem);
      }
    }

    /** `EmptyLeaf()`: no payload, no children, no path element. */
    constructor EmptyLeaf()
      ensures Valid()
      ensures kind == EmptyLeafKind && Left == null && Right == null
      ensures pathElem == None
    {
      kind := EmptyLeafKind;
      Left, Right := null, null;
      Repr := {this};
      pathElem := None;
    }

    /**
     * `new Leaf(content, pathElem)`: throws when a path element that is not a
     * leaf path element is given; otherwise a fresh leaf holding the content.
     */
    static method NewLeaf(content: C, pathElem: Option<PathElement>) returns (r: Result<Element<C>, StructureError>)
      ensures r.Failure? <==> pathElem.Some? && !pathElem.value.PathLeafElement?
      ensures r.Failure? ==> r.error == PathExpectsSubStructure
      ensures r.Success? ==> fresh(r.value) && r.value.Valid() && r.value.kind == LeafKind(content)
      ensures r.Success? ==> r.value.pathElem == pathElem
      ensures r.Success? ==> (r.value.IsPathLeaf() <==> pathElem.Some?) && (r.value.IsPath() <==> pathElem.Some?)
    {
      var check := LeafPathCheck(pathElem);
      if check.Fail? {
        return Failure(check.error);
      }
      var leaf := new Element.Leaf(content, pathElem);
      return Success(leaf);
    }

    /** True when a path element has been set. */
    function IsPath(): (r: bool)
      reads this
    {
      pathElem != None
    }

    /** True when the path element that has been set is a leaf path element. */
    function IsPathLeaf(): (r: bool)
      reads this
      ensures r ==> IsPath()
      ensures r <==> pathElem == Some(PathLeafElement)
    {
      if pathElem == None then false else pathElem.value.PathLeafElement?
    }

    /** Replaces the path element (or clears it, given `None`); nothing else changes. */
    method SetPathElement(p: Option<PathElement>)
      modifies this
      ensures pathElem == p
      ensures IsPath() <==> p.Some?
      ensures IsPathLeaf() <==> p == Some(PathLeafElement)
    {
      pathElem := p;
    }

    /** The prefix of the element's kind: a `SubTreeRootNode` inherits `Node`'s. */
    function Prefix(): HashPrefix {
      match kind
      case NodeKind => HashPrefix.Node
      case SubTreeRootKind(_) => HashPrefix.Node
      case ArrayHeadKind(_, _) => NodeArray
      case DictHeadKind(_, _) => NodeDict
      case LeafKind(_) => HashPrefix.Leaf
      case EmptyLeafKind => HashPrefix.Leaf
    }

    /** The prefix byte of the element, fixed by its kind. */
    function GetPrefixByte(): (r: int)
      ensures r == 0 <==> kind.NodeKind? || kind.SubTreeRootKind?
      ensures r == 1 <==> kind.LeafKind? || kind.EmptyLeafKind?
      ensures r == 7 <==> kind.ArrayHeadKind?
      ensures r == 8 <==> kind.DictHeadKind?
    {
      Prefix().Byte()
    }
  }

  /**
   * Two elements share a prefix byte exactly when both are plain or sub-tree
   * root nodes, both are leaves (empty or not), both are array heads, or both
   * are dictionary heads.
   */
  lemma PrefixByteSeparatesDomains<C>(a: Element<C>, b: Element<C>)
    ensures a.GetPrefixByte() == b.GetPrefixByte() <==>
      || ((a.kind.NodeKind? || a.kind.SubTreeRootKind?) && (b.kind.NodeKind? || b.kind.SubTreeRootKind?))
      || ((a.kind.LeafKind? || a.kind.EmptyLeafKind?) && (b.kind.LeafKind? || b.kind.EmptyLeafKind?))
      || (a.kind.ArrayHeadKind? && b.kind.ArrayHeadKind?)
      || (a.kind.DictHeadKind? && b.kind.DictHeadKind?)
  {
  }

  /** The exception `MaxLevelInternal` raises: it reached a missing (null) child. */
  datatype TreeError = NullElement

  class BinaryTree<C> {
    const Root: Element?<C>

    constructor(root: Element?<C>)
      ensures Root == root
    {
      Root := root;
    }

    /** The depth of the whole tree. */
    function MaxLevel(): (r: Result<nat, TreeError>)
      requires Root != null ==> Root.Valid()
      ensures r.Success? <==> Root != null && Root.Complete()
    {
      MaxLevelInternal(Root)
    }

    /**
     * The depth of `node`: 0 for an empty leaf, 1 for a leaf, one more than the
     * deeper child for every node kind. A missing element fails.
     */
    static function MaxLevelInternal(node: Element?<C>): (r: Result<nat, TreeError>)
      requires node != null ==> node.Valid()
      ensures r.Success? <==> node != null && node.Complete()
      ensures r.Success? ==> (r.value == 0 <==> node.kind.EmptyLeafKind?)
      ensures r.Success? && node.kind.IsNode() ==> r.value >= 1
      decreases if node == null then {} else node.Repr
    {
      if node == null then Failure(NullElement)
      else match node.kind
        case EmptyLeafKind => Success(0)
        case LeafKind(_) => Success(1)
        case _ =>
          var left := MaxLevelInternal(node.Left);
          var right := MaxLevelInternal(node.Right);
          if left.Failure? then left
          else if right.Failure? then right
          else Success(Max(left.value, right.value) + 1)
    }
  }

  function Max(a: nat, b: nat): nat {
    if a < b then b else a
  }

  /**
   * An independent measure of depth: the number of elements other than empty
   * leaves met when walking down from `node`, turning right at `true` and left
   * at `false`, until the directions run out or a leaf kind is reached.
   */
  ghost function PathLevel<C>(node: Element<C>, path: seq<bool>): nat
    requires node.Valid() && node.Complete()
    decreases node.Repr
  {
    if node.kind.EmptyLeafKind? then 0
    else if !node.kind.IsNode() || path == [] then 1
    else 1 + PathLevel(if path[0] then node.Right else node.Left, path[1..])
  }

  /** No walk down a tree goes deeper than its `MaxLevel`. */
  lemma {:induction false} PathLevelAtMostMaxLevel<C>(node: Element<C>, path: seq<bool>)
    requires node.Valid() && node.Complete()
    ensures PathLevel(node, path) <= BinaryTree<C>.MaxLevelInternal(node).value
    decreases node.Repr
  {
    if node.kind.IsNode() && path != [] {
      PathLevelAtMostMaxLevel(if path[0] then node.Right else node.Left, path[1..]);
    }
  }

  /** A walk that reaches `MaxLevel`: at each node, the deeper child (left on a tie). */
  ghost function DeepestPath<C>(node: Element<C>): (path: seq<bool>)
    requires node.Valid() && node.Complete()
    ensures PathLevel(node, path) == BinaryTree<C>.MaxLevelInternal(node).value
    decreases node.Repr
  {
    if !node.kind.IsNode() then []
    else
      var goRight := BinaryTree<C>.MaxLevelInternal(node.Left).value < BinaryTree<C>.MaxLevelInternal(node.Right).value;
      [goRight] + DeepestPath(if goRight then node.Right else node.Left)
  }

  /** A node is strictly deeper than each of its children. */
  lemma NodeDeeperThanChildren<C>(node: Element<C>)
    requires node.Valid() && node.Complete() && node.kind.IsNode()
    ensures BinaryTree<C>.MaxLevelInternal(node).value > BinaryTree<C>.MaxLevelInternal(node.Left).value
    ensures BinaryTree<C>.MaxLevelInternal(node).value > BinaryTree<C>.MaxLevelInternal(node.Right).value
  {
  }

  /** A node whose two children are empty leaves has depth 1. */
  lemma NodeOverEmptyLeavesHasLevelOne<C>(node: Element<C>)
    requires node.Valid() && node.kind.IsNode()
    requires node.Left != null && node.Left.kind.EmptyLeafKind?
    requires node.Right != null && node.Right.kind.EmptyLeafKind?
    ensures BinaryTree<C>.MaxLevelInternal(node) == Success(1)
  {
  }
}
