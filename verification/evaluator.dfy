/**
 * The frame evaluator: `Node.update` and `Bvh.update`. A single cursor is
 * threaded through one frame's samples in pre-order; every node takes one
 * sample per declared channel slot, then hands the cursor to its children
 * in order.
 */
module Evaluator {
  import opened Wrappers
  import opened Numbers
  import opened Channels
  import opened Skeleton

  /** A value together with the cursor position after producing it. */
  datatype Consumed<T> = Consumed(value: T, next: nat)

  /**
   * `frame[index]`. Past the end JavaScript reads `undefined`, which the
   * offset addition or the degree conversion then turns into NaN.
   */
  function Sample(frame: Frame, index: nat): Num
  {
    if index < |frame| then frame[index] else NaN
  }

  /** The axis of `v` that a channel kind refers to. */
  function Axis(v: Vec3, c: Channel): Num
  {
    match c
    case XPosition => v.x
    case YPosition => v.y
    case ZPosition => v.z
    case XRotation => v.x
    case YRotation => v.y
    case ZRotation => v.z
  }

  /** The pose component a channel kind writes. */
  function Component(p: Pose, c: Channel): Num
  {
    if IsPosition(c) then Axis(p.translation, c) else Axis(p.rotation, c)
  }

  /** What a channel kind stores for a sample: position samples as read, rotation samples in radians. */
  function Converted(c: Channel, v: Num): Num
  {
    if IsPosition(c) then v else DegToRad(v)
  }

  /**
   * One step of the channel loop: the branch chosen by the channel kind
   * sets the component of that kind and leaves the other five alone.
   */
  function Write(c: Channel, v: Num, p: Pose): (r: Pose)
    ensures forall d :: Component(r, d) == if c == d then Converted(c, v) else Component(p, d)
  {
    match c
    case XPosition => p.(translation := p.translation.(x := v))
    case YPosition => p.(translation := p.translation.(y := v))
    case ZPosition => p.(translation := p.translation.(z := v))
    case XRotation => p.(rotation := p.rotation.(x := DegToRad(v)))
    case YRotation => p.(rotation := p.rotation.(y := DegToRad(v)))
    case ZRotation => p.(rotation := p.rotation.(z := DegToRad(v)))
  }

  /** The channel loop: slot `k` of `chs` reads sample `index + k`. */
  function ReadChannels(chs: seq<Channel>, index: nat, frame: Frame, p: Pose): Pose
    decreases |chs|
  {
    if |chs| == 0 then p
    else ReadChannels(chs[1..], index + 1, frame, Write(chs[0], Sample(frame, index), p))
  }

  /** The last slot of `chs` holding kind `c`, if any. */
  function LastSlot(chs: seq<Channel>, c: Channel): (r: Option<nat>)
    ensures r.Some? ==> r.value < |chs| && chs[r.value] == c
    ensures r.Some? ==> forall k :: r.value < k < |chs| ==> chs[k] != c
    ensures r.None? <==> c !in chs
    decreases |chs|
  {
    if |chs| == 0 then None
    else
      match LastSlot(chs[1..], c)
      case Some(k) => Some(k + 1)
      case None => if chs[0] == c then Some(0) else None
  }

  /**
   * What the channel loop leaves in the component of kind `c`: the converted
   * sample of the last slot of that kind, or what was there before when the
   * kind is not declared. Later slots overwrite earlier ones.
   */
  lemma {:induction false} ReadChannelsSpec(chs: seq<Channel>, index: nat, frame: Frame, p: Pose, c: Channel)
    ensures Component(ReadChannels(chs, index, frame, p), c)
            == match LastSlot(chs, c)
               case None => Component(p, c)
               case Some(k) => Converted(c, Sample(frame, index + k))
    decreases |chs|
  {
    if |chs| > 0 {
      var p' := Write(chs[0], Sample(frame, index), p);
      ReadChannelsSpec(chs[1..], index + 1, frame, p', c);
    }
  }

  /** The value a node's channels give kind `c`: the last matching slot's sample, or zero. */
  function Sampled(chs: seq<Channel>, index: nat, frame: Frame, c: Channel): Num
  {
    match LastSlot(chs, c)
    case None => Zero
    case Some(k) => Converted(c, Sample(frame, index + k))
  }

  /**
   * `update`'s work on one node, before its children: reset translation and
   * rotation to zero, run the channel loop, add the initial offset.
   */
  function Posed(j: Joint, index: nat, frame: Frame): (r: Joint)
    ensures r.name == j.name && r.channels == j.channels && r.offset == j.offset
  {
    var p := ReadChannels(j.channels, index, frame, Rest);
    j.(pose := Pose(AddVec(p.translation, j.offset), p.rotation))
  }

  /**
   * After `update` a node's translation is the sampled position plus the
   * initial offset, per axis, and its rotation is the sampled rotation, per
   * axis; an axis without a channel samples zero.
   */
  lemma PosedSpec(j: Joint, index: nat, frame: Frame)
    ensures forall c :: IsPosition(c) ==>
              Axis(Posed(j, index, frame).pose.translation, c) == Add(Sampled(j.channels, index, frame, c), Axis(j.offset, c))
    ensures forall c :: !IsPosition(c) ==>
              Axis(Posed(j, index, frame).pose.rotation, c) == Sampled(j.channels, index, frame, c)
  {
    forall c: Channel
      ensures Component(ReadChannels(j.channels, index, frame, Rest), c) == Sampled(j.channels, index, frame, c)
    {
      ReadChannelsSpec(j.channels, index, frame, Rest, c);
    }
  }

  /** A node without position channels ends with translation exactly its initial offset. */
  lemma NoPositionChannels(j: Joint, index: nat, frame: Frame)
    requires forall k :: 0 <= k < |j.channels| ==> !IsPosition(j.channels[k])
    ensures Posed(j, index, frame).pose.translation == j.offset
  {
    assert XPosition !in j.channels && YPosition !in j.channels && ZPosition !in j.channels;
    ReadChannelsSpec(j.channels, index, frame, Rest, XPosition);
    ReadChannelsSpec(j.channels, index, frame, Rest, YPosition);
    ReadChannelsSpec(j.channels, index, frame, Rest, ZPosition);
    var t := ReadChannels(j.channels, index, frame, Rest).translation;
    assert t.x == Component(Rest, XPosition) && t.y == Component(Rest, YPosition) && t.z == Component(Rest, ZPosition);
    assert t == Origin;
    OriginIsNeutral(j.offset);
  }

  /**
   * A joint without channels and with a zero offset, as the node constructor
   * makes it, is posed at rest whatever the cursor and the frame.
   */
  lemma BareJointAtRest(j: Joint, index: nat, frame: Frame)
    requires j.channels == [] && j.offset == Origin
    ensures Posed(j, index, frame).pose == Rest
  {
    OriginIsNeutral(Origin);
  }

  /** `Node.update(index, frame)`: the evaluated subtree and the cursor it returns. */
  function Eval(n: Node, index: nat, frame: Frame): (r: Consumed<Node>)
    ensures r.next == index + ChannelCount(Preorder(n))
    decreases n
  {
    var rest := EvalChildren(n.children, index + |n.joint.channels|, frame);
    assert Preorder(n)[1..] == PreorderAll(n.children);
    Consumed(Node(Posed(n.joint, index, frame), rest.value), rest.next)
  }

  /** The children loop: each child starts where the previous one stopped. */
  function EvalChildren(ns: seq<Node>, index: nat, frame: Frame): (r: Consumed<seq<Node>>)
    ensures |r.value| == |ns|
    ensures r.next == index + ChannelCount(PreorderAll(ns))
    decreases ns
  {
    if |ns| == 0 then Consumed([], index)
    else
      var first := Eval(ns[0], index, frame);
      var rest := EvalChildren(ns[1..], first.next, frame);
      ChannelCountAppend(Preorder(ns[0]), PreorderAll(ns[1..]));
      Consumed([first.value] + rest.value, rest.next)
  }

  /**
   * The reference evaluation of a flat joint list: joint `k` reads its
   * samples starting right after the samples of the joints before it.
   */
  function EvalJoints(js: seq<Joint>, index: nat, frame: Frame): (r: Consumed<seq<Joint>>)
    ensures |r.value| == |js|
    ensures r.next == index + ChannelCount(js)
    decreases |js|
  {
    if |js| == 0 then Consumed([], index)
    else
      var rest := EvalJoints(js[1..], index + |js[0].channels|, frame);
      Consumed([Posed(js[0], index, frame)] + rest.value, rest.next)
  }

  /** Joint `k` of the flat evaluation reads its samples from `index + ChannelCount(js[..k])` on. */
  lemma {:induction false} EvalJointsSlot(js: seq<Joint>, index: nat, frame: Frame, k: nat)
    requires k < |js|
    ensures EvalJoints(js, index, frame).value[k] == Posed(js[k], index + ChannelCount(js[..k]), frame)
    decreases k
  {
    if k > 0 {
      EvalJointsSlot(js[1..], index + |js[0].channels|, frame, k - 1);
      assert js[..k][1..] == js[1..][..k - 1];
    }
  }

  /** Evaluating a concatenation evaluates the first part, then the second from where the first stopped. */
  lemma {:induction false} EvalJointsAppend(a: seq<Joint>, b: seq<Joint>, index: nat, frame: Frame)
    ensures EvalJoints(a + b, index, frame).value
            == EvalJoints(a, index, frame).value + EvalJoints(b, EvalJoints(a, index, frame).next, frame).value
    decreases |a|
  {
    if |a| == 0 {
      assert a + b == b;
    } else {
      var ab := a + b;
      assert ab[0] == a[0];
      assert ab[1..] == a[1..] + b;
      EvalJointsCons(ab, index, frame);
      EvalJointsCons(a, index, frame);
      var i1 := index + |a[0].channels|;
      EvalJointsAppend(a[1..], b, i1, frame);
      AppendAssoc([Posed(a[0], index, frame)], EvalJoints(a[1..], i1, frame).value,
                  EvalJoints(b, EvalJoints(a[1..], i1, frame).next, frame).value);
    }
  }

  lemma AppendAssoc<T>(p: seq<T>, x: seq<T>, y: seq<T>)
    ensures p + (x + y) == (p + x) + y
  {
  }

  /** The flat evaluation poses the first joint, then the rest from after its samples. */
  lemma EvalJointsCons(js: seq<Joint>, index: nat, frame: Frame)
    requires |js| > 0
    ensures EvalJoints(js, index, frame).next == EvalJoints(js[1..], index + |js[0].channels|, frame).next
    ensures EvalJoints(js, index, frame).value
            == [Posed(js[0], index, frame)] + EvalJoints(js[1..], index + |js[0].channels|, frame).value
  {
  }

  /**
   * The tree evaluation agrees with the flat one: the pre-order of the
   * evaluated tree is the flat evaluation of the pre-order.
   */
  lemma {:induction false} EvalIsFlat(n: Node, index: nat, frame: Frame)
    ensures Preorder(Eval(n, index, frame).value) == EvalJoints(Preorder(n), index, frame).value
    decreases n
  {
    var start := index + |n.joint.channels|;
    EvalNode(n, index, frame);
    EvalChildrenIsFlat(n.children, start, frame);
    EvalJointsHead(n.joint, PreorderAll(n.children), index, frame);
  }

  lemma EvalJointsHead(j: Joint, rest: seq<Joint>, index: nat, frame: Frame)
    ensures EvalJoints([j] + rest, index, frame).value
            == [Posed(j, index, frame)] + EvalJoints(rest, index + |j.channels|, frame).value
  {
    assert ([j] + rest)[0] == j && ([j] + rest)[1..] == rest;
  }

  lemma {:induction false} EvalChildrenIsFlat(ns: seq<Node>, index: nat, frame: Frame)
    ensures PreorderAll(EvalChildren(ns, index, frame).value) == EvalJoints(PreorderAll(ns), index, frame).value
    decreases ns
  {
    if |ns| > 0 {
      var first := Eval(ns[0], index, frame);
      var rest := EvalChildren(ns[1..], first.next, frame);
      var p0 := Preorder(ns[0]);
      var ps := PreorderAll(ns[1..]);
      EvalChildrenCons(ns, index, frame);
      EvalIsFlat(ns[0], index, frame);
      EvalChildrenIsFlat(ns[1..], first.next, frame);
      PreorderAllCons(first.value, rest.value);
      EvalJointsAppend(p0, ps, index, frame);
      assert PreorderAll(ns) == p0 + ps;
      assert EvalJoints(p0, index, frame).next == first.next;
      calc {
        PreorderAll(EvalChildren(ns, index, frame).value);
        Preorder(first.value) + PreorderAll(rest.value);
        EvalJoints(p0, index, frame).value + EvalJoints(ps, first.next, frame).value;
        EvalJoints(p0 + ps, index, frame).value;
      }
    }
  }

  /**
   * Children are evaluated in declaration order: child `k` starts at the
   * cursor the children before it leave behind, which is past the whole
   * subtrees of those children.
   */
  lemma {:induction false} ChildrenInOrder(ns: seq<Node>, index: nat, frame: Frame, k: nat)
    requires k < |ns|
    ensures EvalChildren(ns, index, frame).value[k] == Eval(ns[k], EvalChildren(ns[..k], index, frame).next, frame).value
    ensures EvalChildren(ns[..k], index, frame).next == index + ChannelCount(PreorderAll(ns[..k]))
    decreases k
  {
    EvalChildrenCons(ns, index, frame);
    if k == 0 {
      assert ns[..0] == [];
    } else {
      var next := Eval(ns[0], index, frame).next;
      ChildrenInOrder(ns[1..], next, frame, k - 1);
      PrefixCons(ns, index, frame, k);
    }
  }

  /**
   * What `update` does to one node: its own channels read the samples from
   * `index` on, and every child starts where the children before it
   * stopped.
   */
  lemma NodeInOrder(n: Node, index: nat, frame: Frame)
    ensures Eval(n, index, frame).value.joint == Posed(n.joint, index, frame)
    ensures |Eval(n, index, frame).value.children| == |n.children|
    ensures forall k :: 0 <= k < |n.children| ==>
              Eval(n, index, frame).value.children[k]
              == Eval(n.children[k], EvalChildren(n.children[..k], index + |n.joint.channels|, frame).next, frame).value
  {
    EvalNode(n, index, frame);
    AllChildrenInOrder(n.children, index + |n.joint.channels|, frame);
  }

  /** The first child starts right after the node's own samples. */
  lemma FirstChildStart(n: Node, index: nat, frame: Frame)
    requires |n.children| > 0
    ensures Eval(n, index, frame).value.children[0] == Eval(n.children[0], index + |n.joint.channels|, frame).value
  {
    EvalNode(n, index, frame);
    EvalChildrenCons(n.children, index + |n.joint.channels|, frame);
  }

  lemma AllChildrenInOrder(ns: seq<Node>, index: nat, frame: Frame)
    ensures forall k :: 0 <= k < |ns| ==>
              EvalChildren(ns, index, frame).value[k] == Eval(ns[k], EvalChildren(ns[..k], index, frame).next, frame).value
  {
    forall k | 0 <= k < |ns|
      ensures EvalChildren(ns, index, frame).value[k] == Eval(ns[k], EvalChildren(ns[..k], index, frame).next, frame).value
    {
      ChildrenInOrder(ns, index, frame, k);
    }
  }

  /** `update` on one node: pose the node, then run the children loop after its own samples. */
  lemma EvalNode(n: Node, index: nat, frame: Frame)
    ensures Eval(n, index, frame).value
            == Node(Posed(n.joint, index, frame), EvalChildren(n.children, index + |n.joint.channels|, frame).value)
    ensures Eval(n, index, frame).next == EvalChildren(n.children, index + |n.joint.channels|, frame).next
  {
  }

  /** The first `k` children are the first child, then the first `k - 1` of the others. */
  lemma PrefixCons(ns: seq<Node>, index: nat, frame: Frame, k: nat)
    requires 0 < k < |ns|
    ensures ns[1..][k - 1] == ns[k]
    ensures EvalChildren(ns[..k], index, frame).next
            == EvalChildren(ns[1..][..k - 1], Eval(ns[0], index, frame).next, frame).next
  {
    assert ns[..k][0] == ns[0] && ns[..k][1..] == ns[1..][..k - 1];
  }

  /** The children loop evaluates the first child, then the others from where it stopped. */
  lemma EvalChildrenCons(ns: seq<Node>, index: nat, frame: Frame)
    requires |ns| > 0
    ensures var first := Eval(ns[0], index, frame);
            && first.next == index + ChannelCount(Preorder(ns[0]))
            && EvalChildren(ns, index, frame).value == [first.value] + EvalChildren(ns[1..], first.next, frame).value
  {
  }

  /**
   * Evaluation does not depend on the pose a tree was left in: evaluating
   * again, at any cursor and frame, gives what evaluating the original gives.
   */
  lemma {:induction false} EvalForgetsPreviousPose(n: Node, index0: nat, frame0: Frame, index: nat, frame: Frame)
    ensures Eval(Eval(n, index0, frame0).value, index, frame) == Eval(n, index, frame)
    decreases n
  {
    var e := Eval(n, index0, frame0).value;
    var start := index + |n.joint.channels|;
    EvalNode(n, index0, frame0);
    EvalNode(e, index, frame);
    EvalNode(n, index, frame);
    EvalChildrenForgetPreviousPose(n.children, index0 + |n.joint.channels|, frame0, start, frame);
    PosedForgetsPose(n.joint, index0, frame0, index, frame);
  }

  /** Posing an already posed joint is posing the original: only the pose changes, and it is overwritten. */
  lemma PosedForgetsPose(j: Joint, index0: nat, frame0: Frame, index: nat, frame: Frame)
    ensures Posed(Posed(j, index0, frame0), index, frame) == Posed(j, index, frame)
  {
  }

  lemma {:induction false} EvalChildrenForgetPreviousPose(ns: seq<Node>, index0: nat, frame0: Frame, index: nat, frame: Frame)
    ensures EvalChildren(EvalChildren(ns, index0, frame0).value, index, frame) == EvalChildren(ns, index, frame)
    decreases ns
  {
    if |ns| > 0 {
      var first0 := Eval(ns[0], index0, frame0);
      var rest0 := EvalChildren(ns[1..], first0.next, frame0);
      var evaluated := [first0.value] + rest0.value;
      assert evaluated[0] == first0.value && evaluated[1..] == rest0.value;
      EvalForgetsPreviousPose(ns[0], index0, frame0, index, frame);
      var first := Eval(ns[0], index, frame);
      EvalChildrenForgetPreviousPose(ns[1..], first0.next, frame0, first.next, frame);
    }
  }

  /**
   * Evaluation only poses joints: every joint keeps the parent it had, so
   * the `parent` references of the evaluated tree are the original's.
   */
  lemma {:induction false} EvalKeepsParents(n: Node, index: nat, frame: Frame, base: nat, up: Option<nat>)
    ensures Parents(Eval(n, index, frame).value, base, up) == Parents(n, base, up)
    decreases n
  {
    var kids := EvalChildren(n.children, index + |n.joint.channels|, frame).value;
    EvalNode(n, index, frame);
    assert Eval(n, index, frame).value.children == kids;
    EvalChildrenKeepParents(n.children, index + |n.joint.channels|, frame, base + 1, base);
  }

  lemma {:induction false} EvalChildrenKeepParents(ns: seq<Node>, index: nat, frame: Frame, start: nat, parent: nat)
    ensures ParentsAll(EvalChildren(ns, index, frame).value, start, parent) == ParentsAll(ns, start, parent)
    decreases ns
  {
    if |ns| > 0 {
      var first := Eval(ns[0], index, frame);
      var rest := EvalChildren(ns[1..], first.next, frame);
      EvalChildrenCons(ns, index, frame);
      var evaluated := [first.value] + rest.value;
      assert evaluated[0] == first.value && evaluated[1..] == rest.value;
      EvalKeepsParents(ns[0], index, frame, start, Some(parent));
      EvalKeepsSize(ns[0], index, frame);
      EvalChildrenKeepParents(ns[1..], first.next, frame, start + |Preorder(ns[0])|, parent);
    }
  }

  /** Evaluation keeps the number of joints of a subtree. */
  lemma EvalKeepsSize(n: Node, index: nat, frame: Frame)
    ensures |Preorder(Eval(n, index, frame).value)| == |Preorder(n)|
  {
    EvalIsFlat(n, index, frame);
  }

  /**
   * `Bvh.update(pos)`: an index outside the frame list changes nothing;
   * otherwise the root is evaluated at cursor 0 on `frames[pos]` and every
   * joint of the flat list gets the pose the reference evaluation gives it.
   */
  function Update(b: Bvh, pos: int): (r: Bvh)
    ensures !(0 <= pos < |b.frames|) ==> r == b
    ensures r.frames == b.frames && r.frameTime == b.frameTime
    ensures 0 <= pos < |b.frames| ==> Joints(r) == EvalJoints(Joints(b), 0, b.frames[pos]).value
    ensures ParentLinks(r.root) == ParentLinks(b.root)
  {
    if 0 <= pos < |b.frames| then
      EvalIsFlat(b.root, 0, b.frames[pos]);
      EvalKeepsParents(b.root, 0, b.frames[pos], 0, None);
      b.(root := Eval(b.root, 0, b.frames[pos]).value)
    else b
  }

  /**
   * After updating to frame `pos`, joint `k` of the flat list keeps its name,
   * channels and offset and reads its samples from position
   * `ChannelCount(joints[..k])` of the frame; the root's evaluation consumes
   * exactly the sum of all channel counts.
   */
  lemma UpdateSlices(b: Bvh, pos: int, k: nat)
    requires 0 <= pos < |b.frames|
    requires k < |Joints(b)|
    ensures |Joints(Update(b, pos))| == |Joints(b)|
    ensures Joints(Update(b, pos))[k] == Posed(Joints(b)[k], ChannelCount(Joints(b)[..k]), b.frames[pos])
    ensures Eval(b.root, 0, b.frames[pos]).next == ChannelCount(Joints(b))
  {
    EvalJointsSlot(Joints(b), 0, b.frames[pos], k);
  }

  /** Updating twice to the same frame is updating once: nothing accumulates. */
  lemma UpdateIdempotent(b: Bvh, pos: int)
    ensures Update(Update(b, pos), pos) == Update(b, pos)
  {
    if 0 <= pos < |b.frames| {
      EvalForgetsPreviousPose(b.root, 0, b.frames[pos], 0, b.frames[pos]);
    }
  }

  /** The pose after updating to frame `q` does not depend on any frame shown before. */
  lemma UpdateForgetsEarlierFrames(b: Bvh, p: int, q: int)
    requires 0 <= q < |b.frames|
    ensures Update(Update(b, p), q) == Update(b, q)
  {
    if 0 <= p < |b.frames| {
      EvalForgetsPreviousPose(b.root, 0, b.frames[p], 0, b.frames[q]);
    }
  }
}
