/**
 * Two small motion files, for any lines that split into the fields shown
 * and any number syntax that reads the literals in them as expected. The
 * single-joint file is parsed and its one frame evaluated; the nested file
 * has no frames, and only its parse is stated.
 */
module Scenarios {
  import opened Wrappers
  import opened Numbers
  import opened Text
  import opened Channels
  import opened Skeleton
  import opened Evaluator
  import opened Hierarchy
  import opened Parser

  /** A line of `depth` tabs, then `parts` separated by single spaces. */
  function Line(depth: nat, parts: seq<string>): string
    requires |parts| >= 1
  {
    seq(depth, _ => '\t') + Join(parts, ' ')
  }

  /** A field as it appears in a file: non-empty, no space inside, no whitespace at either end. */
  predicate Word(w: string)
  {
    |w| > 0 && ' ' !in w && !IsSpace(w[0]) && !IsSpace(w[|w| - 1])
  }

  /** A non-empty run of visible ASCII characters. */
  predicate Visible(w: string)
  {
    |w| > 0 && forall k :: 0 <= k < |w| ==> '!' <= w[k] <= '~'
  }

  lemma VisibleWord(w: string)
    requires Visible(w)
    ensures Word(w)
  {
    assert forall k :: 0 <= k < |w| ==> w[k] != ' ';
  }

  lemma {:induction false} JoinEnds(parts: seq<string>, sep: char)
    requires |parts| >= 1 && forall k :: 0 <= k < |parts| ==> |parts[k]| > 0
    ensures |Join(parts, sep)| > 0
    ensures Join(parts, sep)[0] == parts[0][0]
    ensures Join(parts, sep)[|Join(parts, sep)| - 1] == parts[|parts| - 1][|parts[|parts| - 1]| - 1]
    decreases |parts|
  {
    if |parts| > 1 {
      JoinEnds(parts[1..], sep);
    }
  }

  /** Indentation is trimmed away and the words come back as the fields. */
  lemma LineFields(depth: nat, parts: seq<string>)
    requires |parts| >= 1
    requires forall k :: 0 <= k < |parts| ==> Visible(parts[k])
    ensures Line(depth, parts) != ""
    ensures Fields(Line(depth, parts)) == parts
    ensures depth == 0 ==> Split(Line(depth, parts), ' ') == parts
  {
    forall k | 0 <= k < |parts| {
      VisibleWord(parts[k]);
    }
    var s := Join(parts, ' ');
    JoinEnds(parts, ' ');
    TrimPadded(seq(depth, _ => '\t'), s);
    JoinThenSplit(parts, ' ');
    if depth == 0 {
      assert Line(depth, parts) == s;
    }
  }

  /** A hierarchy line that leaves the parse inside the tree moves the loop to the next line. */
  lemma Advance(lines: seq<string>, i: nat, st: Stack, syntax: NumberSyntax, st': Stack)
    requires HasLine(lines, i)
    requires Step(st, Fields(lines[i]), i, syntax) == Success(Open(st'))
    ensures ReadHierarchy(lines, i, st, syntax) == ReadHierarchy(lines, i + 1, st', syntax)
  {
  }

  /** A header line that is neither `Frames:` nor `Frame` is skipped. */
  lemma HeaderSkips(lines: seq<string>, i: nat, count: Option<int>, syntax: NumberSyntax)
    requires HasLine(lines, i)
    requires Key(lines[i]) != "Frames:" && Key(lines[i]) != "Frame"
    ensures ReadHeader(lines, i, count, syntax) == ReadHeader(lines, i + 1, count, syntax)
  {
  }

  /** A `Frames:` line sets the count from its second field. */
  lemma HeaderCounts(lines: seq<string>, i: nat, count: Option<int>, syntax: NumberSyntax, fields: seq<string>)
    requires HasLine(lines, i) && fields == Split(lines[i], ' ')
    requires |fields| == 2 && fields[0] == "Frames:"
    ensures ReadHeader(lines, i, count, syntax) == ReadHeader(lines, i + 1, syntax.parseInt(fields[1]), syntax)
  {
  }

  /** A `Frame` line sets the frame time from its third field and ends the header. */
  lemma HeaderTimes(lines: seq<string>, i: nat, count: Option<int>, syntax: NumberSyntax, fields: seq<string>)
    requires HasLine(lines, i) && fields == Split(lines[i], ' ')
    requires |fields| == 3 && fields[0] == "Frame"
    ensures ReadHeader(lines, i, count, syntax) == Header(count, Some(syntax.parseFloat(fields[2])), i + 1)
  {
  }

  /**
   * Nine non-empty lines whose fields are those of a file holding a single
   * joint `hip` with three position channels and one frame, such as the
   * lines `Line(0, ["ROOT", "hip"])`, `Line(0, ["{"])` and so on.
   */
  predicate SingleJointLines(lines: seq<string>)
  {
    && |lines| == 9
    && (forall k :: 0 <= k < |lines| ==> lines[k] != "")
    && Fields(lines[0]) == ["ROOT", "hip"]
    && Fields(lines[1]) == ["{"]
    && Fields(lines[2]) == ["OFFSET", "0", "0", "0"]
    && Fields(lines[3]) == ["CHANNELS", "3", "Xposition", "Yposition", "Zposition"]
    && Fields(lines[4]) == ["}"]
    && Split(lines[5], ' ') == ["MOTION"]
    && Split(lines[6], ' ') == ["Frames:", "1"]
    && Split(lines[7], ' ') == ["Frame", "Time:", "0.033"]
    && Split(lines[8], ' ') == ["1.0", "2.0", "3.0"]
  }

  const Hip: Joint := Joint(Some("hip"), [XPosition, YPosition, ZPosition], Origin, Rest)

  /** The three position names, in order, are recognised as the three position kinds. */
  lemma PositionChannels(fields: seq<string>)
    requires fields == ["CHANNELS", "3", "Xposition", "Yposition", "Zposition"]
    ensures ChannelsOf(fields) == [XPosition, YPosition, ZPosition]
  {
    assert fields[2..] == Names([XPosition, YPosition, ZPosition]);
    RecognisedNames([XPosition, YPosition, ZPosition]);
  }

  /** Each hierarchy line of `SingleJointLines`, one `Step` at a time. */
  lemma SingleJointSteps(fields: seq<string>, syntax: NumberSyntax)
    requires fields == ["CHANNELS", "3", "Xposition", "Yposition", "Zposition"]
    requires syntax.parseFloat("0") == Zero
    ensures Step([], ["ROOT", "hip"], 0, syntax) == Success(Open([NewNode(Some("hip"))]))
    ensures Step([NewNode(Some("hip"))], ["{"], 1, syntax) == Success(Open([NewNode(Some("hip"))]))
    ensures Step([NewNode(Some("hip"))], ["OFFSET", "0", "0", "0"], 2, syntax) == Success(Open([NewNode(Some("hip"))]))
    ensures Step([NewNode(Some("hip"))], fields, 3, syntax) == Success(Open([Node(Hip, [])]))
    ensures Step([Node(Hip, [])], ["}"], 4, syntax) == Success(Finished(Node(Hip, [])))
  {
    assert SetOffset([NewNode(Some("hip"))], Origin) == [NewNode(Some("hip"))];
    PositionChannels(fields);
    var j := NewJoint(Some("hip"));
    assert j.channels + [XPosition, YPosition, ZPosition] == [XPosition, YPosition, ZPosition];
    assert AddChannels([NewNode(Some("hip"))], [XPosition, YPosition, ZPosition]) == [Node(Hip, [])];
  }

  /** The hierarchy section builds the lone joint `hip` and ends after its `}`. */
  lemma SingleJointHierarchy(lines: seq<string>, syntax: NumberSyntax)
    requires SingleJointLines(lines)
    requires syntax.parseFloat("0") == Zero
    ensures ReadHierarchy(lines, 0, [], syntax) == Success(HierarchyEnd(Some(Node(Hip, [])), 5))
  {
    var st := [NewNode(Some("hip"))];
    SingleJointSteps(Fields(lines[3]), syntax);
    Advance(lines, 0, [], syntax, st);
    Advance(lines, 1, st, syntax, st);
    Advance(lines, 2, st, syntax, st);
    Advance(lines, 3, st, syntax, [Node(Hip, [])]);
  }

  /** The motion section: one declared frame, its frame time, and one row of three samples. */
  lemma SingleJointMotion(lines: seq<string>, syntax: NumberSyntax)
    requires SingleJointLines(lines)
    requires syntax.parseFloat("1.0") == Finite(1.0)
    requires syntax.parseFloat("2.0") == Finite(2.0)
    requires syntax.parseFloat("3.0") == Finite(3.0)
    requires syntax.parseInt("1") == Some(1)
    ensures ReadHeader(lines, 5, None, syntax) == Header(Some(1), Some(syntax.parseFloat("0.033")), 8)
    ensures ReadFrames(lines, 8, syntax) == [[Finite(1.0), Finite(2.0), Finite(3.0)]]
  {
    HeaderSkips(lines, 5, None, syntax);
    HeaderCounts(lines, 6, None, syntax, Split(lines[6], ' '));
    HeaderTimes(lines, 7, Some(1), syntax, Split(lines[7], ' '));
    SingleFrame(lines[8], Split(lines[8], ' '), syntax);
    assert ReadFrames(lines, 9, syntax) == [];
  }

  lemma SingleFrame(line: string, fields: seq<string>, syntax: NumberSyntax)
    requires fields == Split(line, ' ') && fields == ["1.0", "2.0", "3.0"]
    requires syntax.parseFloat("1.0") == Finite(1.0)
    requires syntax.parseFloat("2.0") == Finite(2.0)
    requires syntax.parseFloat("3.0") == Finite(3.0)
    ensures FrameOf(line, syntax) == [Finite(1.0), Finite(2.0), Finite(3.0)]
  {
    var f := FrameOf(line, syntax);
    assert |f| == 3 && f[0] == Finite(1.0) && f[1] == Finite(2.0) && f[2] == Finite(3.0);
  }

  /** Frame 0 places `hip` at the sampled position, plus its zero offset, with no rotation. */
  lemma SingleJointPose(frame: Frame)
    requires frame == [Finite(1.0), Finite(2.0), Finite(3.0)]
    ensures Posed(Hip, 0, frame).pose == Pose(Vec3(Finite(1.0), Finite(2.0), Finite(3.0)), Origin)
  {
    PosedSpec(Hip, 0, frame);
    var p := Posed(Hip, 0, frame).pose;
    assert LastSlot(Hip.channels, XPosition) == Some(0);
    assert LastSlot(Hip.channels, YPosition) == Some(1);
    assert LastSlot(Hip.channels, ZPosition) == Some(2);
    assert Axis(p.translation, XPosition) == Finite(1.0);
    assert Axis(p.translation, YPosition) == Finite(2.0);
    assert Axis(p.translation, ZPosition) == Finite(3.0);
    assert Axis(p.rotation, XRotation) == Zero;
    assert Axis(p.rotation, YRotation) == Zero;
    assert Axis(p.rotation, ZRotation) == Zero;
  }

  /**
   * One root with three position channels and one frame: the skeleton has
   * the single joint `hip` with those channels, one frame of three samples,
   * and frame 0 puts `hip` at the sampled position with no rotation.
   */
  lemma SingleJointScenario(lines: seq<string>, syntax: NumberSyntax)
    requires SingleJointLines(lines)
    requires syntax.parseFloat("0") == Zero
    requires syntax.parseFloat("1.0") == Finite(1.0)
    requires syntax.parseFloat("2.0") == Finite(2.0)
    requires syntax.parseFloat("3.0") == Finite(3.0)
    requires syntax.parseInt("1") == Some(1)
    ensures ParseLines(lines, syntax).Success?
    ensures var b := ParseLines(lines, syntax).value;
            && Joints(b) == [Hip]
            && b.frames == [[Finite(1.0), Finite(2.0), Finite(3.0)]]
            && Joints(Update(b, 0))[0].pose == Pose(Vec3(Finite(1.0), Finite(2.0), Finite(3.0)), Origin)
  {
    var frame := [Finite(1.0), Finite(2.0), Finite(3.0)];
    var b := Bvh(Node(Hip, []), [frame], Some(syntax.parseFloat("0.033")));
    SingleJointParse(lines, syntax);
    assert Preorder(Node(Hip, [])) == [Hip] by {
      assert PreorderAll([]) == [];
    }
    SingleJointUpdate(b, frame);
    SingleJointPose(frame);
  }

  lemma SingleJointParse(lines: seq<string>, syntax: NumberSyntax)
    requires SingleJointLines(lines)
    requires syntax.parseFloat("0") == Zero
    requires syntax.parseFloat("1.0") == Finite(1.0)
    requires syntax.parseFloat("2.0") == Finite(2.0)
    requires syntax.parseFloat("3.0") == Finite(3.0)
    requires syntax.parseInt("1") == Some(1)
    ensures ParseLines(lines, syntax)
            == Success(Bvh(Node(Hip, []), [[Finite(1.0), Finite(2.0), Finite(3.0)]], Some(syntax.parseFloat("0.033"))))
  {
    SingleJointHierarchy(lines, syntax);
    SingleJointMotion(lines, syntax);
    FrameCountChecked(lines, syntax);
  }

  /** `update(0)` on a one-joint skeleton poses that joint from the first frame. */
  lemma SingleJointUpdate(b: Bvh, frame: Frame)
    requires b.root == Node(Hip, []) && b.frames == [frame]
    ensures Joints(Update(b, 0)) == [Posed(Hip, 0, frame)]
  {
    assert PreorderAll([]) == [];
    assert EvalChildren([], 3, frame).value == [];
    assert Update(b, 0).root == Node(Posed(Hip, 0, frame), []);
  }

  /**
   * Twelve non-empty lines whose fields are those of a file with a root
   * `hips`, a joint `chest` under it and an end site under that, with no
   * frames; the nested lines may be indented (`Line(1, ...)`, `Line(2, ...)`).
   */
  predicate NestedLines(lines: seq<string>)
  {
    && |lines| == 12
    && (forall k :: 0 <= k < |lines| ==> lines[k] != "")
    && Fields(lines[0]) == ["ROOT", "hips"]
    && Fields(lines[1]) == ["{"]
    && Fields(lines[2]) == ["JOINT", "chest"]
    && Fields(lines[3]) == ["{"]
    && Fields(lines[4]) == ["End", "Site"]
    && Fields(lines[5]) == ["{"]
    && Fields(lines[6]) == ["}"]
    && Fields(lines[7]) == ["}"]
    && Fields(lines[8]) == ["}"]
    && Split(lines[9], ' ') == ["MOTION"]
    && Split(lines[10], ' ') == ["Frames:", "0"]
    && Split(lines[11], ' ') == ["Frame", "Time:", "0.1"]
  }

  const Hips: Node := NewNode(Some("hips"))
  const Chest: Node := NewNode(Some("chest"))
  const Site: Node := NewNode(Some("Site"))

  /** The tree of those lines: `hips`, with `chest` under it, with the end site under that. */
  const NestedRoot: Node := AddChild(Hips, AddChild(Chest, Site))

  /** Each hierarchy line of `NestedLines`, one `Step` at a time. */
  lemma NestedSteps(syntax: NumberSyntax)
    ensures Step([], ["ROOT", "hips"], 0, syntax) == Success(Open([Hips]))
    ensures Step([Hips], ["{"], 1, syntax) == Success(Open([Hips]))
    ensures Step([Hips], ["JOINT", "chest"], 2, syntax) == Success(Open([Hips, Chest]))
    ensures Step([Hips, Chest], ["{"], 3, syntax) == Success(Open([Hips, Chest]))
    ensures Step([Hips, Chest], ["End", "Site"], 4, syntax) == Success(Open([Hips, Chest, Site]))
    ensures Step([Hips, Chest, Site], ["{"], 5, syntax) == Success(Open([Hips, Chest, Site]))
    ensures Step([Hips, Chest, Site], ["}"], 6, syntax) == Success(Open([Hips, AddChild(Chest, Site)]))
    ensures Step([Hips, AddChild(Chest, Site)], ["}"], 7, syntax) == Success(Open([NestedRoot]))
    ensures Step([NestedRoot], ["}"], 8, syntax) == Success(Finished(NestedRoot))
  {
    assert OpenJoint([Hips], Some("chest")) == [Hips, Chest];
    assert OpenJoint([Hips, Chest], Some("Site")) == [Hips, Chest, Site];
    assert CloseJoint([Hips, Chest, Site]) == [Hips, AddChild(Chest, Site)];
    assert CloseJoint([Hips, AddChild(Chest, Site)]) == [NestedRoot];
  }

  lemma NestedHierarchy(lines: seq<string>, syntax: NumberSyntax)
    requires NestedLines(lines)
    ensures ReadHierarchy(lines, 0, [], syntax) == Success(HierarchyEnd(Some(NestedRoot), 9))
  {
    NestedSteps(syntax);
    Advance(lines, 0, [], syntax, [Hips]);
    Advance(lines, 1, [Hips], syntax, [Hips]);
    Advance(lines, 2, [Hips], syntax, [Hips, Chest]);
    Advance(lines, 3, [Hips, Chest], syntax, [Hips, Chest]);
    Advance(lines, 4, [Hips, Chest], syntax, [Hips, Chest, Site]);
    Advance(lines, 5, [Hips, Chest, Site], syntax, [Hips, Chest, Site]);
    Advance(lines, 6, [Hips, Chest, Site], syntax, [Hips, AddChild(Chest, Site)]);
    Advance(lines, 7, [Hips, AddChild(Chest, Site)], syntax, [NestedRoot]);
  }

  /** The joints of `NestedRoot` in pre-order, and each one's parent position. */
  lemma NestedShape()
    ensures JointNames(Preorder(NestedRoot)) == [Some("hips"), Some("chest"), Some("Site")]
    ensures ParentLinks(NestedRoot) == [None, Some(0), Some(1)]
  {
    assert PreorderAll([]) == [];
    assert Preorder(NestedRoot) == [Hips.joint, Chest.joint, Site.joint];
    AddChildParents(Chest, Site, 1, Some(0));
    AddChildParents(Hips, AddChild(Chest, Site), 0, None);
  }

  /**
   * A root with one joint and an end site under it, and no frames: three
   * joints in the order root, joint, end site; the joint's parent is the
   * root and the end site's parent is the joint.
   */
  lemma NestedScenario(lines: seq<string>, syntax: NumberSyntax)
    requires NestedLines(lines)
    requires syntax.parseInt("0") == Some(0)
    ensures ParseLines(lines, syntax).Success?
    ensures var b := ParseLines(lines, syntax).value;
            && JointNames(Joints(b)) == [Some("hips"), Some("chest"), Some("Site")]
            && ParentLinks(b.root) == [None, Some(0), Some(1)]
            && b.frames == []
  {
    NestedParse(lines, syntax);
    NestedShape();
  }

  lemma NestedParse(lines: seq<string>, syntax: NumberSyntax)
    requires NestedLines(lines)
    requires syntax.parseInt("0") == Some(0)
    ensures ParseLines(lines, syntax) == Success(Bvh(NestedRoot, [], Some(syntax.parseFloat("0.1"))))
  {
    NestedHierarchy(lines, syntax);
    HeaderSkips(lines, 9, None, syntax);
    HeaderCounts(lines, 10, None, syntax, Split(lines[10], ' '));
    HeaderTimes(lines, 11, Some(0), syntax, Split(lines[11], ' '));
    assert ReadFrames(lines, 12, syntax) == [];
    FrameCountChecked(lines, syntax);
  }

  // The hierarchy lines of the two files below: their words are visible, so
  // the line, at any indentation, has them as its fields.
  lemma HierarchyLine(depth: nat, p: seq<string>)
    requires || p == ["ROOT", "hip"] || p == ["ROOT", "hips"] || p == ["{"] || p == ["}"]
             || p == ["JOINT", "chest"] || p == ["End", "Site"] || p == ["OFFSET", "0", "0", "0"]
             || p == ["CHANNELS", "3", "Xposition", "Yposition", "Zposition"]
    ensures Line(depth, p) != "" && Fields(Line(depth, p)) == p
  {
    LineFields(depth, p);
  }

  // The motion lines of the two files below; they are not trimmed, so they are unindented.
  lemma MotionLine(p: seq<string>)
    requires || p == ["MOTION"] || p == ["Frames:", "1"] || p == ["Frames:", "0"]
             || p == ["Frame", "Time:", "0.033"] || p == ["Frame", "Time:", "0.1"] || p == ["1.0", "2.0", "3.0"]
    ensures Line(0, p) != "" && Split(Line(0, p), ' ') == p
  {
    LineFields(0, p);
  }

  /**
   * Such lines exist: the file of those fields, with the joint's body
   * indented by `depth` tabs, has exactly the fields required.
   */
  lemma SingleJointFileLines(lines: seq<string>, depth: nat, root: seq<string>, open: seq<string>, offset: seq<string>,
                             channels: seq<string>, close: seq<string>, motion: seq<string>, count: seq<string>,
                             time: seq<string>, samples: seq<string>)
    requires root == ["ROOT", "hip"] && open == ["{"] && offset == ["OFFSET", "0", "0", "0"]
    requires channels == ["CHANNELS", "3", "Xposition", "Yposition", "Zposition"] && close == ["}"]
    requires motion == ["MOTION"] && count == ["Frames:", "1"] && time == ["Frame", "Time:", "0.033"]
    requires samples == ["1.0", "2.0", "3.0"]
    requires |lines| == 9
    requires lines[0] == Line(0, root) && lines[1] == Line(0, open) && lines[2] == Line(depth, offset)
    requires lines[3] == Line(depth, channels) && lines[4] == Line(0, close) && lines[5] == Line(0, motion)
    requires lines[6] == Line(0, count) && lines[7] == Line(0, time) && lines[8] == Line(0, samples)
    ensures SingleJointLines(lines)
  {
    HierarchyLine(0, root);
    HierarchyLine(0, open);
    HierarchyLine(depth, offset);
    HierarchyLine(depth, channels);
    HierarchyLine(0, close);
    MotionLine(motion);
    MotionLine(count);
    MotionLine(time);
    MotionLine(samples);
    NineNonEmpty(lines);
  }

  lemma NineNonEmpty(lines: seq<string>)
    requires |lines| == 9 && lines[0] != "" && lines[1] != "" && lines[2] != "" && lines[3] != ""
    requires lines[4] != "" && lines[5] != "" && lines[6] != "" && lines[7] != "" && lines[8] != ""
    ensures forall k :: 0 <= k < |lines| ==> lines[k] != ""
  {
  }

  /**
   * Such lines exist: the nested file, each joint's body indented one tab
   * deeper than the joint, has exactly the fields required.
   */
  lemma NestedFileLines(lines: seq<string>, root: seq<string>, open: seq<string>, joint: seq<string>, end: seq<string>,
                        close: seq<string>, motion: seq<string>, count: seq<string>, time: seq<string>)
    requires root == ["ROOT", "hips"] && open == ["{"] && joint == ["JOINT", "chest"] && end == ["End", "Site"]
    requires close == ["}"] && motion == ["MOTION"] && count == ["Frames:", "0"] && time == ["Frame", "Time:", "0.1"]
    requires |lines| == 12
    requires lines[0] == Line(0, root) && lines[1] == Line(0, open) && lines[2] == Line(1, joint)
    requires lines[3] == Line(1, open) && lines[4] == Line(2, end) && lines[5] == Line(2, open)
    requires lines[6] == Line(2, close) && lines[7] == Line(1, close) && lines[8] == Line(0, close)
    requires lines[9] == Line(0, motion) && lines[10] == Line(0, count) && lines[11] == Line(0, time)
    ensures NestedLines(lines)
  {
    HierarchyLine(0, root);
    HierarchyLine(0, open);
    HierarchyLine(1, joint);
    HierarchyLine(1, open);
    HierarchyLine(2, end);
    HierarchyLine(2, open);
    HierarchyLine(2, close);
    HierarchyLine(1, close);
    HierarchyLine(0, close);
    MotionLine(motion);
    MotionLine(count);
    MotionLine(time);
    TwelveNonEmpty(lines);
  }

  lemma TwelveNonEmpty(lines: seq<string>)
    requires |lines| == 12 && lines[0] != "" && lines[1] != "" && lines[2] != "" && lines[3] != ""
    requires lines[4] != "" && lines[5] != "" && lines[6] != "" && lines[7] != "" && lines[8] != ""
    requires lines[9] != "" && lines[10] != "" && lines[11] != ""
    ensures forall k :: 0 <= k < |lines| ==> lines[k] != ""
  {
  }
}
