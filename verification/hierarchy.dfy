/**
 * Building the joint tree from the hierarchy section.
 *
 * The parser keeps the chain of open nodes, root first, as a stack. Each
 * entry holds the children already closed under it; a node is attached to
 * its parent when it is closed. The tree the parse has built so far, with
 * every open node attached to the one below it, is `Tree(stack)`, and its
 * pre-order is the skeleton's flat joint list.
 */
module Hierarchy {
  import opened Wrappers
  import opened Numbers
  import opened Channels
  import opened Skeleton

  /** The open-node chain, root first; the last entry is the open node. */
  type Stack = seq<Node>

  /** `new Node(name, parent)`: no channels, a zero offset, a zero pose. */
  function NewJoint(name: Option<string>): (r: Joint)
    ensures r.name == name && r.channels == [] && r.offset == Origin && r.pose == Rest
  {
    Joint(name, [], Origin, Rest)
  }

  function NewNode(name: Option<string>): Node
  {
    Node(NewJoint(name), [])
  }

  /** `parent.children.push(child)`: the child's joints follow the parent's whole subtree. */
  function AddChild(parent: Node, child: Node): (r: Node)
    ensures Preorder(r) == Preorder(parent) + Preorder(child)
  {
    PreorderAllAppend(parent.children, [child]);
    assert PreorderAll([child]) == Preorder(child);
    Node(parent.joint, parent.children + [child])
  }

  lemma {:induction false} ParentsAllSnoc(ns: seq<Node>, x: Node, start: nat, parent: nat)
    ensures ParentsAll(ns + [x], start, parent)
            == ParentsAll(ns, start, parent) + Parents(x, start + |PreorderAll(ns)|, Some(parent))
    decreases |ns|
  {
    if |ns| == 0 {
      assert ns + [x] == [x];
    } else {
      assert (ns + [x])[1..] == ns[1..] + [x];
      ParentsAllSnoc(ns[1..], x, start + |Preorder(ns[0])|, parent);
    }
  }

  /** The child added last has the parent's position as its parent. */
  lemma AddChildParents(parent: Node, child: Node, base: nat, up: Option<nat>)
    ensures Parents(AddChild(parent, child), base, up)
            == Parents(parent, base, up) + Parents(child, base + |Preorder(parent)|, Some(base))
  {
    ParentsAllSnoc(parent.children, child, base + 1, base);
  }

  /** `}` on a non-root node: the open node is attached as the last child of the one below it. */
  function Close(st: Stack): Stack
    requires |st| >= 2
  {
    st[..|st| - 2] + [AddChild(st[|st| - 2], st[|st| - 1])]
  }

  /** The tree built so far: every open node closed. */
  function Tree(st: Stack): Node
    requires |st| >= 1
    decreases |st|
  {
    if |st| == 1 then st[0] else Tree(Close(st))
  }

  /** The flat joint list built so far. */
  function Flat(st: Stack): seq<Joint>
  {
    if |st| == 0 then [] else Preorder(Tree(st))
  }

  /** The parent references built so far, as positions in `Flat(st)`. */
  function Links(st: Stack): seq<Option<nat>>
  {
    if |st| == 0 then [] else ParentLinks(Tree(st))
  }

  /** The position of the open node in `Flat(st)`. */
  function OpenIndex(st: Stack): nat
    requires |st| >= 1
  {
    if |st| == 1 then 0 else |Preorder(Tree(st[..|st| - 1]))|
  }

  /**
   * Pushing a node onto the chain appends its joints to the flat list, and
   * its parent is the node that was open.
   */
  lemma TreePush(st: Stack, x: Node)
    requires |st| >= 1
    ensures Preorder(Tree(st + [x])) == Preorder(Tree(st)) + Preorder(x)
    ensures ParentLinks(Tree(st + [x]))
            == ParentLinks(Tree(st)) + Parents(x, |Preorder(Tree(st))|, Some(OpenIndex(st)))
  {
    TreePushPreorder(st, x);
    TreePushParents(st, x);
  }

  /** Closing the node above `p + [a]` that was pushed last attaches it to `a`. */
  lemma CloseTop(p: Stack, a: Node, x: Node)
    ensures Tree(p + [a] + [x]) == Tree(p + [AddChild(a, x)])
  {
    var st := p + [a] + [x];
    assert st[..|st| - 2] == p;
  }

  lemma {:induction false} TreePushPreorder(st: Stack, x: Node)
    requires |st| >= 1
    ensures Preorder(Tree(st + [x])) == Preorder(Tree(st)) + Preorder(x)
    decreases |st|
  {
    if |st| > 1 {
      var p := st[..|st| - 1];
      var a := st[|st| - 1];
      assert st == p + [a];
      CloseTop(p, a, x);
      TreePushPreorder(p, AddChild(a, x));
      TreePushPreorder(p, a);
    }
  }

  lemma {:induction false} TreePushParents(st: Stack, x: Node)
    requires |st| >= 1
    ensures ParentLinks(Tree(st + [x]))
            == ParentLinks(Tree(st)) + Parents(x, |Preorder(Tree(st))|, Some(OpenIndex(st)))
    decreases |st|
  {
    if |st| == 1 {
      AddChildParents(st[0], x, 0, None);
    } else {
      var p := st[..|st| - 1];
      var a := st[|st| - 1];
      assert st == p + [a];
      var base := |Preorder(Tree(p))|;
      var up := Some(OpenIndex(p));
      assert OpenIndex(st) == base && |Preorder(Tree(st))| == base + |Preorder(a)| by {
        TreePushPreorder(p, a);
      }
      calc {
        ParentLinks(Tree(st + [x]));
        { CloseTop(p, a, x); TreePushParents(p, AddChild(a, x)); }
        ParentLinks(Tree(p)) + Parents(AddChild(a, x), base, up);
        { AddChildParents(a, x, base, up); }
        ParentLinks(Tree(p)) + (Parents(a, base, up) + Parents(x, base + |Preorder(a)|, Some(base)));
        ParentLinks(Tree(p)) + Parents(a, base, up) + Parents(x, base + |Preorder(a)|, Some(base));
        { TreePushParents(p, a); }
        ParentLinks(Tree(st)) + Parents(x, base + |Preorder(a)|, Some(base));
      }
    }
  }

  /**
   * The open node sits at `OpenIndex(st)` of the flat list, and replacing
   * its joint (keeping its children) changes that entry only.
   */
  lemma ReplaceOpenJoint(st: Stack, j: Joint)
    requires |st| >= 1
    ensures var st' := st[..|st| - 1] + [Node(j, st[|st| - 1].children)];
            && OpenIndex(st) < |Flat(st)|
            && Flat(st)[OpenIndex(st)] == st[|st| - 1].joint
            && Flat(st') == Flat(st)[OpenIndex(st) := j]
            && Links(st') == Links(st)
            && OpenIndex(st') == OpenIndex(st)
  {
    var top := st[|st| - 1];
    var top' := Node(j, top.children);
    if |st| > 1 {
      var p := st[..|st| - 1];
      ReplaceAbove(p, top, top');
      assert st == p + [top];
    } else {
      ReplaceRoot(top, top');
      assert st == [top];
    }
  }

  lemma ReplaceRoot(top: Node, top': Node)
    requires top'.children == top.children
    ensures Flat([top']) == Flat([top])[0 := top'.joint]
    ensures Links([top']) == Links([top])
    ensures Flat([top])[0] == top.joint
  {
    ParentsSameShape(top, top', 0, None);
  }

  /** Pushing two nodes that differ only in their own joint gives flat lists that differ only there. */
  lemma ReplaceAbove(p: Stack, top: Node, top': Node)
    requires |p| >= 1 && top'.children == top.children
    ensures OpenIndex(p + [top]) == OpenIndex(p + [top']) == |Flat(p)|
    ensures |Flat(p)| < |Flat(p + [top])| && Flat(p + [top])[|Flat(p)|] == top.joint
    ensures Flat(p + [top']) == Flat(p + [top])[|Flat(p)| := top'.joint]
    ensures Links(p + [top']) == Links(p + [top])
  {
    TreePush(p, top);
    TreePush(p, top');
    assert (p + [top])[..|p|] == p;
    assert (p + [top'])[..|p|] == p;
    var f := Preorder(Tree(p));
    assert Preorder(top) == [top.joint] + PreorderAll(top.children);
    assert Preorder(top') == [top'.joint] + PreorderAll(top.children);
    assert (f + Preorder(top))[|f| := top'.joint] == f + Preorder(top');
    ParentsSameShape(top, top', |f|, Some(OpenIndex(p)));
  }

  lemma ParentsSameShape(a: Node, b: Node, base: nat, up: Option<nat>)
    requires a.children == b.children
    ensures Parents(a, base, up) == Parents(b, base, up)
  {
  }

  /**
   * `JOINT` or `End`: a new node, child of the open node, appended to the
   * flat list; it becomes the open node.
   */
  function OpenJoint(st: Stack, name: Option<string>): (r: Stack)
    requires |st| >= 1
    ensures |r| == |st| + 1
    ensures Flat(r) == Flat(st) + [NewJoint(name)]
    ensures Links(r) == Links(st) + [Some(OpenIndex(st))]
    ensures OpenIndex(r) == |Flat(st)|
  {
    TreePush(st, NewNode(name));
    assert (st + [NewNode(name)])[..|st|] == st;
    st + [NewNode(name)]
  }

  /** `OFFSET`: the open node's initial offset is set; nothing else changes. */
  function SetOffset(st: Stack, offset: Vec3): (r: Stack)
    requires |st| >= 1
    ensures |r| == |st| && OpenIndex(r) == OpenIndex(st) && OpenIndex(st) < |Flat(st)|
    ensures Flat(r) == Flat(st)[OpenIndex(st) := Flat(st)[OpenIndex(st)].(offset := offset)]
    ensures Links(r) == Links(st)
  {
    var top := st[|st| - 1];
    ReplaceOpenJoint(st, top.joint.(offset := offset));
    st[..|st| - 1] + [Node(top.joint.(offset := offset), top.children)]
  }

  /** `CHANNELS`: kinds are appended to the open node's channels; nothing else changes. */
  function AddChannels(st: Stack, cs: seq<Channel>): (r: Stack)
    requires |st| >= 1
    ensures |r| == |st| && OpenIndex(r) == OpenIndex(st) && OpenIndex(st) < |Flat(st)|
    ensures Flat(r) == Flat(st)[OpenIndex(st) := Flat(st)[OpenIndex(st)].(channels := Flat(st)[OpenIndex(st)].channels + cs)]
    ensures Links(r) == Links(st)
  {
    var top := st[|st| - 1];
    var j := top.joint.(channels := top.joint.channels + cs);
    ReplaceOpenJoint(st, j);
    st[..|st| - 1] + [Node(j, top.children)]
  }

  /**
   * `}` below the root: the tree is unchanged and the open node becomes the
   * parent of the node that was open.
   */
  function CloseJoint(st: Stack): (r: Stack)
    requires |st| >= 2
    ensures |r| == |st| - 1
    ensures Tree(r) == Tree(st)
    ensures OpenIndex(st) < |Links(st)| && Links(st)[OpenIndex(st)] == Some(OpenIndex(r))
  {
    var p := st[..|st| - 1];
    var a := st[|st| - 1];
    assert st == p + [a];
    TreePush(p, a);
    ParentsShape(Tree(p), 0, None);
    ParentsShape(a, |Preorder(Tree(p))|, Some(OpenIndex(p)));
    var r := Close(st);
    assert |r| > 1 ==> r[..|r| - 1] == p[..|p| - 1];
    r
  }
}
