/**
 * The scene graph of a loaded glTF asset and the name search `getMeshByName`
 * (index.js:200-213) over it.
 */
module SceneTree {
  import opened Wrappers

  /** Stands for the identity of a scene-graph object: two nodes are the same object exactly when their ids agree. */
  type NodeId = nat

  /** A scene-graph node: its identity, the name given in the authoring tool, whether it is a mesh, and its ordered children. */
  datatype Node = Node(id: NodeId, name: string, isMesh: bool, children: seq<Node>)

  /** The proper descendants of `n`, in pre-order: each child, then that child's own descendants, then the next child. */
  function Descendants(n: Node): seq<Node>
    decreases n, |n.children| + 1
  {
    SubtreesFrom(n, 0)
  }

  /** The pre-order listing of the subtrees rooted at `n.children[i..]`. */
  function SubtreesFrom(n: Node, i: nat): seq<Node>
    requires i <= |n.children|
    decreases n, |n.children| - i
  {
    if i == |n.children| then []
    else [n.children[i]] + Descendants(n.children[i]) + SubtreesFrom(n, i + 1)
  }

  /** The first node of `xs` whose name is `name`. */
  function FirstNamed(xs: seq<Node>, name: string): (r: Option<Node>)
    ensures r.Some? ==> r.value in xs && r.value.name == name
    ensures r.None? <==> forall x :: x in xs ==> x.name != name
  {
    if xs == [] then None
    else if xs[0].name == name then Some(xs[0])
    else FirstNamed(xs[1..], name)
  }

  /** What `getMeshByName(parent, name)` returns: the first proper descendant of `parent`, in pre-order, named `name`. */
  function Lookup(parent: Node, name: string): Option<Node>
  {
    FirstNamed(Descendants(parent), name)
  }

  /** `getMeshByName` (index.js:200-213): checks each child's name, then searches that child's subtree, before the next child. */
  method GetMeshByName(parent: Node, name: string) returns (mesh: Option<Node>)
    ensures mesh == Lookup(parent, name)
    decreases parent
  {
    mesh := None;
    var i := 0;
    while i < |parent.children|
      invariant 0 <= i <= |parent.children|
      invariant mesh == None
      invariant Lookup(parent, name) == FirstNamed(SubtreesFrom(parent, i), name)
    {
      var child := parent.children[i];
      UnfoldSubtrees(parent, i, name);
      if child.name == name {
        mesh := Some(child);
        break;
      }
      mesh := GetMeshByName(child, name);
      if mesh != None {
        break;
      }
      i := i + 1;
    }
  }

  /** One step of the pre-order search: the child at `i`, then its subtree, then the later children. */
  lemma UnfoldSubtrees(n: Node, i: nat, name: string)
    requires i < |n.children|
    ensures FirstNamed(SubtreesFrom(n, i), name) ==
      if n.children[i].name == name then Some(n.children[i])
      else if Lookup(n.children[i], name).Some? then Lookup(n.children[i], name)
      else FirstNamed(SubtreesFrom(n, i + 1), name)
  {
    var c := n.children[i];
    var rest := Descendants(c) + SubtreesFrom(n, i + 1);
    assert SubtreesFrom(n, i) == [c] + rest;
    assert ([c] + rest)[1..] == rest;
    FirstNamedConcat(Descendants(c), SubtreesFrom(n, i + 1), name);
  }

  /** Searching a concatenation searches the first part completely before the second. */
  lemma {:induction false} FirstNamedConcat(xs: seq<Node>, ys: seq<Node>, name: string)
    ensures FirstNamed(xs + ys, name) ==
      if FirstNamed(xs, name).Some? then FirstNamed(xs, name) else FirstNamed(ys, name)
  {
    if xs == [] {
      assert xs + ys == ys;
    } else {
      assert (xs + ys)[0] == xs[0];
      assert (xs + ys)[1..] == xs[1..] + ys;
      FirstNamedConcat(xs[1..], ys, name);
    }
  }

  /** The match found is the earliest named node of the list: nothing before it has that name. */
  lemma {:induction false} FirstNamedIsEarliest(xs: seq<Node>, name: string) returns (k: nat)
    requires FirstNamed(xs, name).Some?
    ensures k < |xs| && xs[k] == FirstNamed(xs, name).value
    ensures forall j :: 0 <= j < k ==> xs[j].name != name
  {
    if xs[0].name == name {
      k := 0;
    } else {
      var k' := FirstNamedIsEarliest(xs[1..], name);
      k := k' + 1;
    }
  }

  /**
   * Soundness and first-match order of the search: a result is a proper descendant with the
   * requested name, and no descendant earlier in pre-order has that name.
   */
  lemma LookupIsFirstInPreOrder(parent: Node, name: string) returns (k: nat)
    requires Lookup(parent, name).Some?
    ensures Lookup(parent, name).value.name == name
    ensures k < |Descendants(parent)| && Descendants(parent)[k] == Lookup(parent, name).value
    ensures forall j :: 0 <= j < k ==> Descendants(parent)[j].name != name
  {
    k := FirstNamedIsEarliest(Descendants(parent), name);
  }

  /** Some descendant of `n` (a child, or a descendant of a child) has the name `name`. */
  predicate HasNamedDescendant(n: Node, name: string)
    decreases n
  {
    exists k :: 0 <= k < |n.children| &&
      (n.children[k].name == name || HasNamedDescendant(n.children[k], name))
  }

  /** Completeness: the search finds a node exactly when some child or deeper descendant has the name. */
  lemma {:induction false} LookupComplete(n: Node, name: string)
    ensures Lookup(n, name).Some? <==> HasNamedDescendant(n, name)
    decreases n, |n.children| + 1
  {
    SubtreesFromComplete(n, 0, name);
  }

  lemma {:induction false} SubtreesFromComplete(n: Node, i: nat, name: string)
    requires i <= |n.children|
    ensures FirstNamed(SubtreesFrom(n, i), name).Some? <==>
      exists k :: i <= k < |n.children| &&
        (n.children[k].name == name || HasNamedDescendant(n.children[k], name))
    decreases n, |n.children| - i
  {
    if i < |n.children| {
      UnfoldSubtrees(n, i, name);
      LookupComplete(n.children[i], name);
      SubtreesFromComplete(n, i + 1, name);
    }
  }

  /** Every proper descendant has strictly fewer descendants than `n`; in particular `n` is not among them. */
  lemma {:induction false} DescendantsAreSmaller(n: Node)
    ensures forall d :: d in Descendants(n) ==> |Descendants(d)| < |Descendants(n)|
    decreases n, |n.children| + 1
  {
    SubtreesFromAreSmaller(n, 0);
  }

  lemma {:induction false} SubtreesFromAreSmaller(n: Node, i: nat)
    requires i <= |n.children|
    ensures forall d :: d in SubtreesFrom(n, i) ==> |Descendants(d)| < |SubtreesFrom(n, i)|
    decreases n, |n.children| - i
  {
    if i < |n.children| {
      var c := n.children[i];
      DescendantsAreSmaller(c);
      SubtreesFromAreSmaller(n, i + 1);
      assert SubtreesFrom(n, i) == [c] + Descendants(c) + SubtreesFrom(n, i + 1);
    }
  }

  /** The search never returns the node it starts from. */
  lemma LookupIsProperDescendant(parent: Node, name: string)
    requires Lookup(parent, name).Some?
    ensures Lookup(parent, name).value in Descendants(parent)
    ensures Lookup(parent, name).value != parent
  {
    DescendantsAreSmaller(parent);
  }

  /** The search depends on the children only: the start node's own name (and id and mesh flag) is never looked at. */
  lemma LookupIgnoresStartNode(p: Node, q: Node, name: string)
    requires p.children == q.children
    ensures Lookup(p, name) == Lookup(q, name)
  {
    SameChildrenSameSubtrees(p, q, 0);
  }

  lemma {:induction false} SameChildrenSameSubtrees(p: Node, q: Node, i: nat)
    requires p.children == q.children && i <= |p.children|
    ensures SubtreesFrom(p, i) == SubtreesFrom(q, i)
    decreases |p.children| - i
  {
    if i < |p.children| {
      SameChildrenSameSubtrees(p, q, i + 1);
    }
  }

  /**
   * Pre-order priority: once the children before `i` and their subtrees hold no match, child `i` is
   * checked first, then its whole subtree, so a deep match under child `i` beats a direct match on
   * any later sibling.
   */
  lemma ChildOrder(p: Node, name: string, i: nat)
    requires i < |p.children|
    requires forall k :: 0 <= k < i ==> p.children[k].name != name && Lookup(p.children[k], name).None?
    ensures p.children[i].name == name ==> Lookup(p, name) == Some(p.children[i])
    ensures p.children[i].name != name && Lookup(p.children[i], name).Some? ==>
      Lookup(p, name) == Lookup(p.children[i], name)
  {
    SkipUnmatched(p, name, i);
    UnfoldSubtrees(p, i, name);
  }

  lemma {:induction false} SkipUnmatched(p: Node, name: string, i: nat)
    requires i <= |p.children|
    requires forall k :: 0 <= k < i ==> p.children[k].name != name && Lookup(p.children[k], name).None?
    ensures Lookup(p, name) == FirstNamed(SubtreesFrom(p, i), name)
  {
    if i > 0 {
      SkipUnmatched(p, name, i - 1);
      UnfoldSubtrees(p, i - 1, name);
    }
  }

  /** The node ids of the proper descendants of `root` are pairwise distinct: the ids are object identities. */
  ghost predicate UniqueIds(root: Node)
  {
    forall a, b :: 0 <= a < b < |Descendants(root)| ==> Descendants(root)[a].id != Descendants(root)[b].id
  }

  /** The direct children of `scene` carry pairwise distinct ids. */
  ghost predicate DistinctChildIds(scene: Node)
  {
    forall a, b :: 0 <= a < b < |scene.children| ==> scene.children[a].id != scene.children[b].id
  }

  /** Under unique ids, two searches for different names that both succeed find different objects. */
  lemma DifferentNamesDifferentIds(root: Node, x: string, y: string)
    requires UniqueIds(root) && x != y
    requires Lookup(root, x).Some? && Lookup(root, y).Some?
    ensures Lookup(root, x).value.id != Lookup(root, y).value.id
  {
    var a := LookupIsFirstInPreOrder(root, x);
    var b := LookupIsFirstInPreOrder(root, y);
    assert a != b;
    if a < b {
      assert Descendants(root)[a].id != Descendants(root)[b].id;
    } else {
      assert Descendants(root)[b].id != Descendants(root)[a].id;
    }
  }
}
