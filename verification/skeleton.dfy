/**
 * The joint tree (`Node`) and the skeleton that owns it (`Bvh`).
 *
 * A node's identity is its position in the pre-order of the tree, which is
 * also the position of its entry in the flat `joints` list; parent
 * back-references are pre-order positions as well.
 */
module Skeleton {
  import opened Wrappers
  import opened Numbers
  import opened Channels

  /** The last evaluated local translation, and rotation in radians. */
  datatype Pose = Pose(translation: Vec3, rotation: Vec3)

  const Rest: Pose := Pose(Origin, Origin)

  /** Everything a node holds except its children. */
  datatype Joint = Joint(name: Option<string>, channels: seq<Channel>, offset: Vec3, pose: Pose)

  datatype Node = Node(joint: Joint, children: seq<Node>)

  /** One row of channel samples for the whole skeleton. */
  type Frame = seq<Num>

  datatype Bvh = Bvh(root: Node, frames: seq<Frame>, frameTime: Option<Num>)

  /** The joints of a tree, parent before children, children in order. */
  function Preorder(n: Node): seq<Joint>
    decreases n
  {
    [n.joint] + PreorderAll(n.children)
  }

  function PreorderAll(ns: seq<Node>): seq<Joint>
    decreases ns
  {
    if |ns| == 0 then [] else Preorder(ns[0]) + PreorderAll(ns[1..])
  }

  /** The skeleton's flat joint list. */
  function Joints(b: Bvh): seq<Joint>
  {
    Preorder(b.root)
  }

  lemma {:induction false} PreorderAllAppend(a: seq<Node>, b: seq<Node>)
    ensures PreorderAll(a + b) == PreorderAll(a) + PreorderAll(b)
    decreases |a|
  {
    if |a| == 0 {
      assert a + b == b;
    } else {
      assert (a + b)[1..] == a[1..] + b;
      PreorderAllAppend(a[1..], b);
    }
  }

  lemma PreorderAllCons(x: Node, ys: seq<Node>)
    ensures PreorderAll([x] + ys) == Preorder(x) + PreorderAll(ys)
  {
    assert ([x] + ys)[1..] == ys;
  }

  /**
   * The parent position of every joint in `Preorder(n)`, when `n` sits at
   * position `base` under `parent`.
   */
  function Parents(n: Node, base: nat, parent: Option<nat>): seq<Option<nat>>
    decreases n
  {
    [parent] + ParentsAll(n.children, base + 1, base)
  }

  function ParentsAll(ns: seq<Node>, start: nat, parent: nat): seq<Option<nat>>
    decreases ns
  {
    if |ns| == 0 then []
    else Parents(ns[0], start, Some(parent)) + ParentsAll(ns[1..], start + |Preorder(ns[0])|, parent)
  }

  /** The `parent` reference of each joint of a skeleton rooted at `root`. */
  function ParentLinks(root: Node): seq<Option<nat>>
  {
    Parents(root, 0, None)
  }

  /**
   * One parent entry per joint; the first is the given parent and every
   * other joint's parent lies inside the subtree, strictly before the joint.
   */
  lemma {:induction false} ParentsShape(n: Node, base: nat, parent: Option<nat>)
    ensures |Parents(n, base, parent)| == |Preorder(n)|
    ensures Parents(n, base, parent)[0] == parent
    ensures forall k :: 1 <= k < |Parents(n, base, parent)| ==>
              Parents(n, base, parent)[k].Some? && base <= Parents(n, base, parent)[k].value < base + k
    decreases n
  {
    ParentsAllShape(n.children, base + 1, base);
    var ps := Parents(n, base, parent);
    var rest := ParentsAll(n.children, base + 1, base);
    assert forall k :: 1 <= k < |ps| ==> ps[k] == rest[k - 1];
  }

  lemma {:induction false} ParentsAllShape(ns: seq<Node>, start: nat, parent: nat)
    ensures |ParentsAll(ns, start, parent)| == |PreorderAll(ns)|
    ensures forall k :: 0 <= k < |ParentsAll(ns, start, parent)| ==>
              ParentsAll(ns, start, parent)[k].Some?
              && (ParentsAll(ns, start, parent)[k].value == parent
                  || start <= ParentsAll(ns, start, parent)[k].value < start + k)
    decreases ns
  {
    if |ns| > 0 {
      var size := |Preorder(ns[0])|;
      ParentsShape(ns[0], start, Some(parent));
      ParentsAllShape(ns[1..], start + size, parent);
      var ps := ParentsAll(ns, start, parent);
      var first := Parents(ns[0], start, Some(parent));
      var rest := ParentsAll(ns[1..], start + size, parent);
      assert forall k :: 0 <= k < |first| ==> ps[k] == first[k];
      assert forall k :: |first| <= k < |ps| ==> ps[k] == rest[k - size];
    }
  }

  /** `isSite`: a node without children, which is a node whose subtree is itself alone. */
  function IsSite(n: Node): (r: bool)
    ensures r <==> |Preorder(n)| == 1
  {
    PreorderNonEmpty(n.children);
    |n.children| == 0
  }

  lemma PreorderNonEmpty(ns: seq<Node>)
    ensures |ns| > 0 ==> |PreorderAll(ns)| > 0
  {
  }

  /** `isRoot` of the joint at position `k`: it has no parent, which holds of position 0 only. */
  function IsRoot(root: Node, k: nat): (r: bool)
    requires k < |Preorder(root)|
    ensures r <==> k == 0
  {
    ParentsShape(root, 0, None);
    ParentLinks(root)[k].None?
  }

  /** The number of samples a list of joints consumes: the sum of their channel counts. */
  function ChannelCount(js: seq<Joint>): nat
    decreases |js|
  {
    if |js| == 0 then 0 else |js[0].channels| + ChannelCount(js[1..])
  }

  lemma {:induction false} ChannelCountAppend(a: seq<Joint>, b: seq<Joint>)
    ensures ChannelCount(a + b) == ChannelCount(a) + ChannelCount(b)
    decreases |a|
  {
    if |a| == 0 {
      assert a + b == b;
    } else {
      assert (a + b)[1..] == a[1..] + b;
      ChannelCountAppend(a[1..], b);
    }
  }
}
