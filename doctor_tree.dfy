/**
 * The doctor hierarchy: an unbalanced binary tree of named doctors with
 * search by name, child insertion at a named parent and the three
 * depth-first traversals.
 *
 * Search and the traversals are pure recursion and become functions on the
 * `Tree` datatype. `insert` assigns a child slot of the node that search
 * found; here it rebuilds the path from the root to that node (`Attach`),
 * and a one-hole context (`Ctx`) names that position, so that "only this
 * slot changed" can be stated as "the same context, plugged with the new
 * node".
 */
module DoctorHierarchy {
  import opened Wrappers

  datatype Tree = Nil | Node(name: string, left: Tree, right: Tree)

  /** The two child slots `insert` recognises. */
  datatype Side = Left | Right

  /**
   * A tree with one hole: the path from the root down to one position,
   * with everything beside that path.
   */
  datatype Ctx =
    | Hole
    | InLeft(name: string, below: Ctx, right: Tree)
    | InRight(name: string, left: Tree, below: Ctx)

  /** A freshly built `DoctorNode`: one node, no children. */
  function Leaf(name: string): (r: Tree)
    ensures r.Node? && r.name == name && Size(r) == 1
  {
    Node(name, Nil, Nil)
  }

  function Size(t: Tree): nat
  {
    match t
    case Nil => 0
    case Node(_, l, r) => Size(l) + 1 + Size(r)
  }

  // ---------------------------------------------------------------------
  // Traversals
  // ---------------------------------------------------------------------

  /** Root, then left subtree, then right subtree. */
  function Preorder(t: Tree): (r: seq<string>)
    ensures |r| == Size(t)
    ensures t.Node? ==> r[0] == t.name
  {
    match t
    case Nil => []
    case Node(n, l, r) => [n] + Preorder(l) + Preorder(r)
  }

  /** Left subtree, then root, then right subtree. */
  function Inorder(t: Tree): (r: seq<string>)
    ensures |r| == Size(t)
    ensures t.Node? ==> r[Size(t.left)] == t.name
  {
    match t
    case Nil => []
    case Node(n, l, r) => Inorder(l) + [n] + Inorder(r)
  }

  /** Left subtree, then right subtree, then root. */
  function Postorder(t: Tree): (r: seq<string>)
    ensures |r| == Size(t)
    ensures t.Node? ==> r[|r| - 1] == t.name
  {
    match t
    case Nil => []
    case Node(n, l, r) => Postorder(l) + Postorder(r) + [n]
  }

  /** The three traversals list every node once: same length, same names. */
  lemma {:induction false} TraversalsAgree(t: Tree)
    ensures |Preorder(t)| == Size(t) && |Inorder(t)| == Size(t) && |Postorder(t)| == Size(t)
    ensures multiset(Inorder(t)) == multiset(Preorder(t))
    ensures multiset(Postorder(t)) == multiset(Preorder(t))
  {
    match t
    case Nil =>
    case Node(n, l, r) =>
      TraversalsAgree(l);
      TraversalsAgree(r);
  }

  /** A tree of one node yields just its name from each traversal. */
  lemma SingleNodeTraversals(name: string)
    ensures Preorder(Leaf(name)) == [name]
    ensures Inorder(Leaf(name)) == [name]
    ensures Postorder(Leaf(name)) == [name]
  {
  }

  // ---------------------------------------------------------------------
  // Search
  // ---------------------------------------------------------------------

  /**
   * `_find_node`: the first node named `name`, checking the node itself,
   * then the whole left subtree, then the right subtree.
   */
  function FindNode(t: Tree, name: string): (r: Option<Tree>)
    ensures r.None? <==> name !in Preorder(t)
    ensures r.Some? ==> r.value.Node? && r.value.name == name
  {
    match t
    case Nil => None
    case Node(n, l, r) =>
      if n == name then Some(t)
      else
        var leftResult := FindNode(l, name);
        if leftResult.Some? then leftResult else FindNode(r, name)
  }

  /** The tree that results from putting `u` into the hole of `ctx`. */
  function Plug(ctx: Ctx, u: Tree): Tree
  {
    match ctx
    case Hole => u
    case InLeft(n, c, r) => Node(n, Plug(c, u), r)
    case InRight(n, l, c) => Node(n, l, Plug(c, u))
  }

  /** The preorder names visited before the hole of `ctx`. */
  function PreBefore(ctx: Ctx): seq<string>
  {
    match ctx
    case Hole => []
    case InLeft(n, c, _) => [n] + PreBefore(c)
    case InRight(n, l, c) => [n] + Preorder(l) + PreBefore(c)
  }

  /** The preorder names visited after the hole of `ctx`. */
  function PreAfter(ctx: Ctx): seq<string>
  {
    match ctx
    case Hole => []
    case InLeft(_, c, r) => PreAfter(c) + Preorder(r)
    case InRight(_, _, c) => PreAfter(c)
  }

  lemma {:induction false} PreorderPlug(ctx: Ctx, u: Tree)
    ensures Preorder(Plug(ctx, u)) == PreBefore(ctx) + Preorder(u) + PreAfter(ctx)
  {
    match ctx
    case Hole =>
    case InLeft(n, c, r) =>
      PreorderPlug(c, u);
    case InRight(n, l, c) =>
      PreorderPlug(c, u);
  }

  /**
   * Where `FindNode` finds its node: the context of the first node named
   * `name` in preorder.
   */
  function Locate(t: Tree, name: string): (r: Option<Ctx>)
    ensures r.Some? <==> name in Preorder(t)
    ensures r.Some? ==> Plug(r.value, FindNode(t, name).value) == t
    ensures r.Some? ==> name !in PreBefore(r.value)
  {
    match t
    case Nil => None
    case Node(n, l, r) =>
      if n == name then Some(Hole)
      else if FindNode(l, name).Some? then Some(InLeft(n, Locate(l, name).value, r))
      else if FindNode(r, name).Some? then Some(InRight(n, l, Locate(r, name).value))
      else None
  }

  /**
   * The node `FindNode` returns is the first preorder occurrence of `name`:
   * the preorder of the whole tree is the names before it, which do not
   * include `name`, then its own preorder, which starts with `name`, then
   * the rest.
   */
  lemma FindNodeIsFirstInPreorder(t: Tree, name: string)
    requires name in Preorder(t)
    ensures Preorder(t) == PreBefore(Locate(t, name).value)
                          + Preorder(FindNode(t, name).value)
                          + PreAfter(Locate(t, name).value)
    ensures name !in PreBefore(Locate(t, name).value)
    ensures Preorder(FindNode(t, name).value)[0] == name
  {
    PreorderPlug(Locate(t, name).value, FindNode(t, name).value);
  }

  /**
   * Search finds a node plugged into a context none of whose earlier
   * preorder names match: the context determines the first match.
   */
  lemma {:induction false} FindNodeInPlug(ctx: Ctx, s: Tree, name: string)
    requires s.Node? && s.name == name && name !in PreBefore(ctx)
    ensures FindNode(Plug(ctx, s), name) == Some(s)
    ensures Locate(Plug(ctx, s), name) == Some(ctx)
  {
    match ctx
    case Hole =>
    case InLeft(n, c, r) =>
      FindNodeInPlug(c, s, name);
    case InRight(n, l, c) =>
      FindNodeInPlug(c, s, name);
  }

  // ---------------------------------------------------------------------
  // Attaching a child
  // ---------------------------------------------------------------------

  /** Node `m` with its `side` slot replaced by `u`: the assignment of `insert`. */
  function WithChild(m: Tree, side: Side, u: Tree): (r: Tree)
    requires m.Node?
    ensures r.Node? && r.name == m.name
    ensures side == Left ==> r.left == u && r.right == m.right
    ensures side == Right ==> r.right == u && r.left == m.left
  {
    match side
    case Left => Node(m.name, u, m.right)
    case Right => Node(m.name, m.left, u)
  }

  /**
   * The tree after the `side` slot of the first node named `name` is set to
   * `u`: the path down to that node is rebuilt, following the same order as
   * `FindNode`. A tree without such a node is returned as it is.
   */
  function Attach(t: Tree, name: string, u: Tree, side: Side): (r: Tree)
    ensures name !in Preorder(t) ==> r == t
  {
    match t
    case Nil => Nil
    case Node(n, l, r) =>
      if n == name then WithChild(t, side, u)
      else if FindNode(l, name).Some? then Node(n, Attach(l, name, u, side), r)
      else Node(n, l, Attach(r, name, u, side))
  }

  /**
   * Attaching changes exactly the node search finds: the result is the same
   * context around that node, with only the `side` slot replaced.
   */
  lemma {:induction false} AttachAtFoundNode(t: Tree, name: string, u: Tree, side: Side)
    requires name in Preorder(t)
    ensures Attach(t, name, u, side)
         == Plug(Locate(t, name).value, WithChild(FindNode(t, name).value, side, u))
  {
    match t
    case Node(n, l, r) =>
      if n != name {
        if FindNode(l, name).Some? {
          AttachAtFoundNode(l, name, u, side);
        } else {
          AttachAtFoundNode(r, name, u, side);
        }
      }
  }

  /**
   * After attaching, searching for the same name finds the same position,
   * now holding the parent with its new child.
   */
  lemma AttachThenFind(t: Tree, name: string, u: Tree, side: Side)
    requires name in Preorder(t)
    ensures FindNode(Attach(t, name, u, side), name) == Some(WithChild(FindNode(t, name).value, side, u))
    ensures Locate(Attach(t, name, u, side), name) == Locate(t, name)
  {
    AttachAtFoundNode(t, name, u, side);
    FindNodeInPlug(Locate(t, name).value, WithChild(FindNode(t, name).value, side, u), name);
  }

  /**
   * In preorder, attaching replaces exactly the names of the overwritten
   * subtree by those of `u`; every name before and after the parent's
   * subtree stays in place.
   */
  lemma AttachPreorder(t: Tree, name: string, u: Tree, side: Side)
    requires name in Preorder(t)
    ensures var ctx, m := Locate(t, name).value, FindNode(t, name).value;
      && Preorder(t) == PreBefore(ctx) + [name] + Preorder(m.left) + Preorder(m.right) + PreAfter(ctx)
      && (side == Left ==>
            Preorder(Attach(t, name, u, side))
            == PreBefore(ctx) + [name] + Preorder(u) + Preorder(m.right) + PreAfter(ctx))
      && (side == Right ==>
            Preorder(Attach(t, name, u, side))
            == PreBefore(ctx) + [name] + Preorder(m.left) + Preorder(u) + PreAfter(ctx))
  {
    var ctx, m := Locate(t, name).value, FindNode(t, name).value;
    var n := WithChild(m, side, u);
    AttachAtFoundNode(t, name, u, side);
    PreorderAroundNode(ctx, m);
    PreorderAroundNode(ctx, n);
  }

  /**
   * The preorder of a node in its context: the names before the context's
   * hole, the node's name, its left and right subtrees, then the names after.
   */
  lemma PreorderAroundNode(ctx: Ctx, m: Tree)
    requires m.Node?
    ensures Preorder(Plug(ctx, m))
         == PreBefore(ctx) + [m.name] + Preorder(m.left) + Preorder(m.right) + PreAfter(ctx)
  {
    PreorderPlug(ctx, m);
    var before, after := PreBefore(ctx), PreAfter(ctx);
    var l, r := Preorder(m.left), Preorder(m.right);
    assert Preorder(m) == [m.name] + l + r;
    assert before + ([m.name] + l + r) == before + [m.name] + l + r;
  }

  /**
   * The names of the overwritten subtree leave the tree and the new child's
   * name enters it; with `TraversalsAgree` this holds for all three
   * traversals.
   */
  lemma AttachNames(t: Tree, name: string, child: string, side: Side)
    requires name in Preorder(t)
    ensures var m := FindNode(t, name).value;
      var lost := if side == Left then m.left else m.right;
      multiset(Preorder(Attach(t, name, Leaf(child), side)))
        == multiset(Preorder(t)) - multiset(Preorder(lost)) + multiset{child}
  {
    AttachPreorder(t, name, Leaf(child), side);
  }

  // ---------------------------------------------------------------------
  // The tree object
  // ---------------------------------------------------------------------

  /** The recognised side tokens of `insert`; anything else is ignored. */
  function SideOf(side: string): (r: Option<Side>)
    ensures r == Some(Left) <==> side == "left"
    ensures r == Some(Right) <==> side == "right"
  {
    if side == "left" then Some(Left)
    else if side == "right" then Some(Right)
    else None
  }

  class DoctorTree {
    var root: Tree

    constructor ()
      ensures root == Nil
    {
      root := Nil;
    }

    /** Setting `tree.root` to a new single node, as the driver does. */
    method SetRoot(name: string)
      modifies this
      ensures root == Leaf(name)
    {
      root := Leaf(name);
    }

    /**
     * `insert(parent_name, child_name, side)`: a silent no-op on an empty
     * tree, an absent parent or an unrecognised side; otherwise the found
     * parent's `side` slot becomes a new leaf, discarding what was there.
     */
    method Insert(parentName: string, childName: string, side: string)
      modifies this
      ensures old(root) == Nil ==> root == Nil
      ensures parentName !in Preorder(old(root)) ==> root == old(root)
      ensures SideOf(side).None? ==> root == old(root)
      ensures parentName in Preorder(old(root)) && SideOf(side).Some? ==>
                root == Attach(old(root), parentName, Leaf(childName), SideOf(side).value)
    {
      if root == Nil {
        return;
      }
      var parentNode := FindNode(root, parentName);
      if parentNode == None {
        return;
      }
      var childNode := Leaf(childName);
      if side == "left" {
        root := Attach(root, parentName, childNode, Left);
      } else if side == "right" {
        root := Attach(root, parentName, childNode, Right);
      }
    }
  }

  /** The first scenario of the module's demonstration driver: five inserts and the traversals. */
  method DriverBuildScenario()
  {
    var tree := new DoctorTree();
    tree.SetRoot("Dr. Croft");
    tree.Insert("Dr. Croft", "Dr. Goldsmith", "right");
    tree.Insert("Dr. Croft", "Dr. Phan", "left");
    tree.Insert("Dr. Phan", "Dr. Carson", "right");
    tree.Insert("Dr. Phan", "Dr. Morgan", "left");
    assert tree.root == Node("Dr. Croft",
                             Node("Dr. Phan", Leaf("Dr. Morgan"), Leaf("Dr. Carson")),
                             Leaf("Dr. Goldsmith"));
    assert Preorder(tree.root) == ["Dr. Croft", "Dr. Phan", "Dr. Morgan", "Dr. Carson", "Dr. Goldsmith"];
    assert Inorder(tree.root) == ["Dr. Morgan", "Dr. Phan", "Dr. Carson", "Dr. Croft", "Dr. Goldsmith"];
    assert Postorder(tree.root) == ["Dr. Morgan", "Dr. Carson", "Dr. Phan", "Dr. Goldsmith", "Dr. Croft"];
  }

  /** The driver's no-op scenarios: an absent parent, an unknown side, an empty tree. */
  method DriverNoOpScenarios()
  {
    var tree := new DoctorTree();
    tree.SetRoot("Dr. Croft");
    tree.Insert("Dr. Croft", "Dr. Phan", "left");
    var before := tree.root;
    tree.Insert("Dr. NonExistent", "Dr. Smith", "left");
    assert tree.root == before;
    tree.Insert("Dr. Croft", "Dr. Invalid", "middle");
    assert tree.root == before;

    var emptyTree := new DoctorTree();
    emptyTree.Insert("Dr. Someone", "Dr. Anyone", "left");
    assert emptyTree.root == Nil;
  }

  /** Overwriting an occupied slot discards the whole subtree that was there. */
  method OverwriteScenario()
  {
    var tree := new DoctorTree();
    tree.SetRoot("A");
    tree.Insert("A", "B", "left");
    tree.Insert("B", "D", "left");
    tree.Insert("A", "E", "left");
    assert tree.root == Node("A", Leaf("E"), Nil);
    assert Preorder(tree.root) == ["A", "E"];
  }
}
