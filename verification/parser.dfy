/**
 * `Parser.parse`: the hierarchy section, line by line over an open-node
 * stack, then the motion header, then one frame per remaining line.
 *
 * The three loops of the parse share one line index, and each stops at the
 * first empty line or at the end of the input, stepping past it.
 */
module Parser {
  import opened Wrappers
  import opened Numbers
  import opened Text
  import opened Channels
  import opened Skeleton
  import opened Hierarchy

  /**
   * Why a parse fails. `NoOpenJoint` and `NoSkeleton` are the places where
   * the parse dereferences a joint or skeleton that does not exist yet.
   */
  datatype ParseError =
    | NoOpenJoint(line: nat)
    | NoSkeleton
    | FrameCountMismatch(declared: Option<int>, parsed: nat)

  /** Where a hierarchy line leaves the parse: still inside the tree, or done with it. */
  datatype Scope = Open(stack: Stack) | Finished(root: Node)

  /** `fields[k]`, `undefined` past the end. */
  function Field(fields: seq<string>, k: nat): Option<string>
  {
    if k < |fields| then Some(fields[k]) else None
  }

  /** Whether a line (still) holds input for the loops: not empty and not past the end. */
  predicate HasLine(lines: seq<string>, i: nat)
  {
    i < |lines| && lines[i] != ""
  }

  /** One hierarchy line, dispatched on its first field. */
  function Step(st: Stack, fields: seq<string>, line: nat, syntax: NumberSyntax): (r: Result<Scope, ParseError>)
    requires |fields| >= 1
    ensures r.Failure? ==> r.error == NoOpenJoint(line)
    ensures r.Failure? <==> |st| == 0 && (fields[0] in {"JOINT", "End", "OFFSET", "}"} || (fields[0] == "CHANNELS" && ChannelsOf(fields) != []))
    ensures r.Success? && r.value.Finished? <==> fields[0] == "}" && |st| == 1
    ensures r.Success? && r.value.Finished? ==> Preorder(r.value.root) == Flat(st) && ParentLinks(r.value.root) == Links(st)
  {
    var key := fields[0];
    if key == "ROOT" then
      Success(Open([NewNode(Field(fields, 1))]))
    else if key == "JOINT" || key == "End" then
      if |st| == 0 then Failure(NoOpenJoint(line)) else Success(Open(OpenJoint(st, Field(fields, 1))))
    else if key == "OFFSET" then
      var offset := Vec3(FloatField(syntax, fields, 1), FloatField(syntax, fields, 2), FloatField(syntax, fields, 3));
      if |st| == 0 then Failure(NoOpenJoint(line)) else Success(Open(SetOffset(st, offset)))
    else if key == "CHANNELS" then
      var cs := ChannelsOf(fields);
      if |st| == 0 then
        if cs == [] then Success(Open(st)) else Failure(NoOpenJoint(line))
      else Success(Open(AddChannels(st, cs)))
    else if key == "}" then
      if |st| == 0 then Failure(NoOpenJoint(line))
      else if |st| == 1 then Success(Finished(st[0]))
      else Success(Open(CloseJoint(st)))
    else
      Success(Open(st))
  }

  /**
   * An indented `}` line that ends in a carriage return. The program strips
   * it with a pattern that matches leading or trailing whitespace but not
   * both, keeps the `\r`, does not recognise the key, and leaves the joint
   * open; trimming both ends, as `Fields` does, closes the joint.
   */
  lemma IndentedCrlfBraceStep(st: Stack, syntax: NumberSyntax)
    requires |st| >= 2
    ensures Step(st, Split(StripFirstMatch("\t}\r"), ' '), 0, syntax) == Success(Open(st))
    ensures Step(st, Fields("\t}\r"), 0, syntax) == Success(Open(CloseJoint(st)))
  {
    IndentedCrlfBrace();
    var kept, closed := "}\r", "}";
    assert kept[0] == '}' && kept[1] == '\r' && closed[0] == '}';
    JoinThenSplit([kept], ' ');
    JoinThenSplit([closed], ' ');
  }

  /**
   * What each hierarchy line does once a joint is open: `ROOT` starts a new
   * tree; `JOINT` and `End` append a joint whose parent is the open joint;
   * `OFFSET` sets the open joint's offset from fields 1 to 3; `CHANNELS`
   * appends the recognised kinds to the open joint; `}` below the root makes
   * the parent the open joint; any other line changes nothing.
   */
  lemma StepEdits(st: Stack, fields: seq<string>, line: nat, syntax: NumberSyntax)
    requires |fields| >= 1 && |st| >= 1
    ensures var r := Step(st, fields, line, syntax);
            var o := OpenIndex(st);
            var key := fields[0];
            && o < |Flat(st)|
            && (key == "ROOT" ==>
                  r.Success? && r.value.Open? && Flat(r.value.stack) == [NewJoint(Field(fields, 1))]
                  && Links(r.value.stack) == [None])
            && (key == "JOINT" || key == "End" ==>
                  r.Success? && r.value.Open? && |r.value.stack| == |st| + 1
                  && Flat(r.value.stack) == Flat(st) + [NewJoint(Field(fields, 1))]
                  && Links(r.value.stack) == Links(st) + [Some(o)] && OpenIndex(r.value.stack) == |Flat(st)|)
            && (key == "OFFSET" ==>
                  r.Success? && r.value.Open? && |r.value.stack| == |st| && OpenIndex(r.value.stack) == o && Links(r.value.stack) == Links(st)
                  && Flat(r.value.stack)
                     == Flat(st)[o := Flat(st)[o].(offset := Vec3(FloatField(syntax, fields, 1), FloatField(syntax, fields, 2), FloatField(syntax, fields, 3)))])
            && (key == "CHANNELS" ==>
                  r.Success? && r.value.Open? && |r.value.stack| == |st| && OpenIndex(r.value.stack) == o && Links(r.value.stack) == Links(st)
                  && Flat(r.value.stack) == Flat(st)[o := Flat(st)[o].(channels := Flat(st)[o].channels + ChannelsOf(fields))])
            && (key == "}" && |st| >= 2 ==>
                  r.Success? && r.value.Open? && |r.value.stack| == |st| - 1 && Tree(r.value.stack) == Tree(st)
                  && o < |Links(st)| && Links(st)[o] == Some(OpenIndex(r.value.stack)))
            && (key !in {"ROOT", "JOINT", "End", "OFFSET", "CHANNELS", "}"} ==> r == Success(Open(st)))
  {
    var key := fields[0];
    ReplaceOpenJoint(st, st[|st| - 1].joint);
    if key == "ROOT" {
      var n := NewNode(Field(fields, 1));
      assert PreorderAll(n.children) == [] && ParentsAll(n.children, 1, 0) == [];
    }
  }

  /**
   * The lines read before any joint is open: `ROOT` opens a fresh joint,
   * with no channels, a zero offset and no parent, whatever came before;
   * every other line that does not fail leaves the parse with no joint open.
   */
  lemma StepWithoutJoint(fields: seq<string>, line: nat, syntax: NumberSyntax)
    requires |fields| >= 1
    ensures var r := Step([], fields, line, syntax);
            && (fields[0] == "ROOT" ==>
                  r.Success? && r.value.Open? && Flat(r.value.stack) == [NewJoint(Field(fields, 1))]
                  && Links(r.value.stack) == [None] && OpenIndex(r.value.stack) == 0)
            && (fields[0] != "ROOT" && r.Success? ==> r == Success(Open([])))
  {
    var n := NewNode(Field(fields, 1));
    assert PreorderAll(n.children) == [] && ParentsAll(n.children, 1, 0) == [];
  }

  /** The end of the hierarchy section: the tree, if a `ROOT` was seen, and the next line index. */
  datatype HierarchyEnd = HierarchyEnd(root: Option<Node>, next: nat)

  /**
   * The hierarchy loop from line `i` on. It stops after the `}` that closes
   * the root, or at an empty line or the end of the input, with whatever
   * tree is built by then.
   */
  function ReadHierarchy(lines: seq<string>, i: nat, st: Stack, syntax: NumberSyntax): (r: Result<HierarchyEnd, ParseError>)
    ensures r.Success? ==> i < r.value.next
    ensures r.Failure? ==> r.error.NoOpenJoint? && i <= r.error.line && HasLine(lines, r.error.line)
    ensures r.Success? && |st| > 0 ==> r.value.root.Some?
    decreases |lines| - i
  {
    if !HasLine(lines, i) then
      Success(HierarchyEnd(if |st| == 0 then None else Some(Tree(st)), i + 1))
    else
      var scope :- Step(st, Fields(lines[i]), i, syntax);
      match scope
      case Finished(root) => Success(HierarchyEnd(Some(root), i + 1))
      case Open(st') => ReadHierarchy(lines, i + 1, st', syntax)
  }

  /**
   * The hierarchy loop running out of input, at an empty line or past the
   * last line, with a joint open: it yields the tree built so far, whose
   * joints and parent references are those of the stack, and moves past
   * that line.
   */
  lemma HierarchyRunsOut(lines: seq<string>, i: nat, st: Stack, syntax: NumberSyntax)
    requires |st| > 0 && !HasLine(lines, i)
    ensures var r := ReadHierarchy(lines, i, st, syntax);
            && r.Success? && r.value.root.Some? && r.value.next == i + 1
            && Preorder(r.value.root.value) == Flat(st) && ParentLinks(r.value.root.value) == Links(st)
  {
  }

  /**
   * The hierarchy loop at the `}` that closes the root: it yields the tree
   * built so far and moves past that line.
   */
  lemma HierarchyClosesRoot(lines: seq<string>, i: nat, st: Stack, syntax: NumberSyntax)
    requires HasLine(lines, i) && |st| == 1 && Fields(lines[i])[0] == "}"
    ensures var r := ReadHierarchy(lines, i, st, syntax);
            && r.Success? && r.value.root.Some? && r.value.next == i + 1
            && Preorder(r.value.root.value) == Flat(st) && ParentLinks(r.value.root.value) == Links(st)
  {
  }

  /** The hierarchy loop that moves on to line `next` stepped over non-empty lines only. */
  lemma {:induction false} HierarchySkipsOnlyLines(lines: seq<string>, i: nat, st: Stack, syntax: NumberSyntax, next: nat)
    requires ReadHierarchy(lines, i, st, syntax).Success? && ReadHierarchy(lines, i, st, syntax).value.next == next
    ensures forall k :: i <= k < next - 1 ==> HasLine(lines, k)
    decreases |lines| - i
  {
    if HasLine(lines, i) {
      match Step(st, Fields(lines[i]), i, syntax).value
      case Finished(_) =>
        assert next == i + 1;
      case Open(st') =>
        assert ReadHierarchy(lines, i, st, syntax) == ReadHierarchy(lines, i + 1, st', syntax);
        HierarchySkipsOnlyLines(lines, i + 1, st', syntax, next);
        forall k | i <= k < next - 1
          ensures HasLine(lines, k)
        {
          if k > i {
            assert i + 1 <= k < next - 1;
          }
        }
    }
  }

  /**
   * The line `next - 1` that the hierarchy loop stops on is empty, past the
   * input, or a line whose key is `}`.
   */
  lemma {:induction false} HierarchyStopLine(lines: seq<string>, i: nat, st: Stack, syntax: NumberSyntax, next: nat)
    requires ReadHierarchy(lines, i, st, syntax).Success? && ReadHierarchy(lines, i, st, syntax).value.next == next
    ensures HasLine(lines, next - 1) ==> Fields(lines[next - 1])[0] == "}"
    decreases |lines| - i
  {
    if HasLine(lines, i) {
      match Step(st, Fields(lines[i]), i, syntax).value
      case Finished(_) =>
        assert Fields(lines[i])[0] == "}";
      case Open(st') =>
        assert ReadHierarchy(lines, i, st, syntax) == ReadHierarchy(lines, i + 1, st', syntax);
        HierarchyStopLine(lines, i + 1, st', syntax, next);
    }
  }

  /** The names the joint list holds after one more hierarchy line: a `ROOT` starts over. */
  function Declare(fields: seq<string>, names: seq<Option<string>>): seq<Option<string>>
    requires |fields| >= 1
  {
    if fields[0] == "ROOT" then [Field(fields, 1)]
    else if fields[0] == "JOINT" || fields[0] == "End" then names + [Field(fields, 1)]
    else names
  }

  /** The names declared by `ROOT`, `JOINT` and `End` lines, in file order, since the last `ROOT`. */
  function Declared(lines: seq<string>, names: seq<Option<string>>): seq<Option<string>>
    decreases |lines|
  {
    if |lines| == 0 then names else Declared(lines[1..], Declare(Fields(lines[0]), names))
  }

  function JointNames(js: seq<Joint>): seq<Option<string>>
  {
    seq(|js|, k requires 0 <= k < |js| => js[k].name)
  }

  /** Every line changes the names in the joint list as `Declare` says. */
  lemma StepDeclares(st: Stack, fields: seq<string>, line: nat, syntax: NumberSyntax)
    requires |fields| >= 1
    requires Step(st, fields, line, syntax).Success?
    ensures var s := Step(st, fields, line, syntax).value;
            && (s.Open? ==> JointNames(Flat(s.stack)) == Declare(fields, JointNames(Flat(st))))
            && (s.Finished? ==> JointNames(Preorder(s.root)) == Declare(fields, JointNames(Flat(st))))
  {
    var key := fields[0];
    var s := Step(st, fields, line, syntax).value;
    if key == "ROOT" {
      var n := NewNode(Field(fields, 1));
      assert s == Open([n]);
      assert PreorderAll(n.children) == [];
      assert Flat([n]) == Preorder(n) == [NewJoint(Field(fields, 1))];
    } else if key == "JOINT" || key == "End" {
      assert s == Open(OpenJoint(st, Field(fields, 1)));
      NamesSnoc(Flat(st), NewJoint(Field(fields, 1)));
    } else if key == "OFFSET" {
      if |st| > 0 {
        var offset := Vec3(FloatField(syntax, fields, 1), FloatField(syntax, fields, 2), FloatField(syntax, fields, 3));
        assert s == Open(SetOffset(st, offset));
        var o := OpenIndex(st);
        EditKeepsNames(Flat(st), o, Flat(st)[o].(offset := offset));
      }
    } else if key == "CHANNELS" {
      if |st| > 0 {
        var cs := ChannelsOf(fields);
        assert s == Open(AddChannels(st, cs));
        var o := OpenIndex(st);
        EditKeepsNames(Flat(st), o, Flat(st)[o].(channels := Flat(st)[o].channels + cs));
      }
    } else if key == "}" {
      if |st| > 1 {
        assert s == Open(CloseJoint(st));
      }
    }
  }

  lemma NamesSnoc(js: seq<Joint>, j: Joint)
    ensures JointNames(js + [j]) == JointNames(js) + [j.name]
  {
  }

  /** Replacing a joint by one with the same name leaves the names alone. */
  lemma EditKeepsNames(js: seq<Joint>, o: nat, j: Joint)
    requires o < |js| && j.name == js[o].name
    ensures JointNames(js[o := j]) == JointNames(js)
  {
  }

  /**
   * Each `ROOT`, `JOINT` or `End` line adds exactly one joint, in file
   * order: the joint list of the finished hierarchy holds the declared
   * names.
   */
  lemma {:induction false} HierarchyDeclarationOrder(lines: seq<string>, i: nat, st: Stack, syntax: NumberSyntax)
    requires i <= |lines|
    requires ReadHierarchy(lines, i, st, syntax).Success?
    requires ReadHierarchy(lines, i, st, syntax).value.root.Some?
    ensures var h := ReadHierarchy(lines, i, st, syntax).value;
            var stop := if h.next < |lines| then h.next else |lines|;
            i <= stop && JointNames(Preorder(h.root.value)) == Declared(lines[i..stop], JointNames(Flat(st)))
    decreases |lines| - i
  {
    var h := ReadHierarchy(lines, i, st, syntax).value;
    var stop := if h.next < |lines| then h.next else |lines|;
    if !HasLine(lines, i) {
      if i < |lines| {
        assert lines[i..stop] == [""];
        assert Fields("") == [""];
        assert lines[i..stop][1..] == [];
      } else {
        assert lines[i..stop] == [];
      }
    } else {
      var fields := Fields(lines[i]);
      StepDeclares(st, fields, i, syntax);
      assert lines[i..stop][0] == lines[i];
      assert lines[i..stop][1..] == lines[i + 1..stop];
      match Step(st, fields, i, syntax).value
      case Finished(root) => {
        assert stop == i + 1;
      }
      case Open(st') => {
        HierarchyDeclarationOrder(lines, i + 1, st', syntax);
      }
    }
  }

  /** The first space-separated field of a motion line, which says what the line holds. */
  function Key(line: string): string
  {
    Split(line, ' ')[0]
  }

  /** Line `k` is a `Frames:` line. */
  predicate CountLine(lines: seq<string>, k: nat)
  {
    k < |lines| && Key(lines[k]) == "Frames:"
  }

  /** The frame count lines `i` up to `stop` leave when the count before them is `count`. */
  function CountFrom(lines: seq<string>, i: nat, stop: int, count: Option<int>, syntax: NumberSyntax): Option<int>
    decreases stop - i
  {
    if stop <= i then count
    else CountFrom(lines, i + 1, stop, if CountLine(lines, i) then IntField(syntax, Split(lines[i], ' '), 1) else count, syntax)
  }

  /** Lines without a `Frames:` line leave the count as it was. */
  lemma {:induction false} CountFromNone(lines: seq<string>, i: nat, stop: int, count: Option<int>, syntax: NumberSyntax)
    requires forall k :: i <= k < stop ==> !CountLine(lines, k)
    ensures CountFrom(lines, i, stop, count, syntax) == count
    decreases stop - i
  {
    if i < stop {
      assert !CountLine(lines, i);
      CountFromNone(lines, i + 1, stop, count, syntax);
    }
  }

  /** The last `Frames:` line among the lines decides the count, whatever came before it. */
  lemma {:induction false} CountFromLast(lines: seq<string>, i: nat, stop: int, count: Option<int>, syntax: NumberSyntax, k: nat)
    requires i <= k < stop && CountLine(lines, k)
    requires forall m :: k < m < stop ==> !CountLine(lines, m)
    ensures CountFrom(lines, i, stop, count, syntax) == IntField(syntax, Split(lines[k], ' '), 1)
    decreases stop - i
  {
    var count' := if CountLine(lines, i) then IntField(syntax, Split(lines[i], ' '), 1) else count;
    if i == k {
      CountFromNone(lines, i + 1, stop, count', syntax);
    } else {
      CountFromLast(lines, i + 1, stop, count', syntax, k);
    }
  }

  /** The motion header: the declared frame count, the frame time, and where frames begin. */
  datatype Header = Header(frameCount: Option<int>, frameTime: Option<Num>, next: nat)

  /**
   * The header loop: lines are split as they are, without trimming. A
   * `Frames:` line sets the count (the last one wins) and a `Frame` line
   * sets the frame time and ends the loop; every other line is skipped.
   */
  function ReadHeader(lines: seq<string>, i: nat, count: Option<int>, syntax: NumberSyntax): (h: Header)
    ensures i < h.next
    ensures forall k :: i <= k < h.next - 1 ==> HasLine(lines, k) && Key(lines[k]) != "Frame"
    ensures h.frameTime.Some? <==> HasLine(lines, h.next - 1) && Key(lines[h.next - 1]) == "Frame"
    ensures h.frameTime.Some? ==> h.frameTime.value == FloatField(syntax, Split(lines[h.next - 1], ' '), 2)
    ensures h.frameTime.None? ==> !HasLine(lines, h.next - 1)
    decreases |lines| - i
  {
    if !HasLine(lines, i) then Header(count, None, i + 1)
    else if Key(lines[i]) == "Frames:" then ReadHeader(lines, i + 1, IntField(syntax, Split(lines[i], ' '), 1), syntax)
    else if Key(lines[i]) == "Frame" then Header(count, Some(FloatField(syntax, Split(lines[i], ' '), 2)), i + 1)
    else ReadHeader(lines, i + 1, count, syntax)
  }

  /** The header loop's count is what the lines it passed over leave. */
  lemma {:induction false} HeaderCountFrom(lines: seq<string>, i: nat, count: Option<int>, syntax: NumberSyntax)
    ensures ReadHeader(lines, i, count, syntax).frameCount
            == CountFrom(lines, i, ReadHeader(lines, i, count, syntax).next - 1, count, syntax)
    decreases |lines| - i
  {
    var h := ReadHeader(lines, i, count, syntax);
    if HasLine(lines, i) && Key(lines[i]) != "Frame" {
      var count' := if CountLine(lines, i) then IntField(syntax, Split(lines[i], ' '), 1) else count;
      assert h == ReadHeader(lines, i + 1, count', syntax);
      HeaderCountFrom(lines, i + 1, count', syntax);
    }
  }

  /**
   * The frame count the header declares: the value of the last `Frames:`
   * line before the frame-time line, or the count it started with when no
   * such line precedes it.
   */
  lemma HeaderCount(lines: seq<string>, i: nat, count: Option<int>, syntax: NumberSyntax)
    ensures var h := ReadHeader(lines, i, count, syntax);
            (forall k :: i <= k < h.next - 1 ==> !CountLine(lines, k)) ==> h.frameCount == count
    ensures var h := ReadHeader(lines, i, count, syntax);
            forall k :: i <= k < h.next - 1 && CountLine(lines, k) && (forall m :: k < m < h.next - 1 ==> !CountLine(lines, m)) ==>
              h.frameCount == IntField(syntax, Split(lines[k], ' '), 1)
  {
    var h := ReadHeader(lines, i, count, syntax);
    HeaderCountFrom(lines, i, count, syntax);
    if forall k :: i <= k < h.next - 1 ==> !CountLine(lines, k) {
      CountFromNone(lines, i, h.next - 1, count, syntax);
    }
    forall k | i <= k < h.next - 1 && CountLine(lines, k) && (forall m :: k < m < h.next - 1 ==> !CountLine(lines, m))
      ensures h.frameCount == IntField(syntax, Split(lines[k], ' '), 1)
    {
      CountFromLast(lines, i, h.next - 1, count, syntax, k);
    }
  }

  /**
   * One frame line: one sample per space-separated field, in order, each
   * the field through `parseFloat`; the line is not trimmed, so a doubled or
   * trailing space gives an empty field and a sample of its own.
   */
  function FrameOf(line: string, syntax: NumberSyntax): (r: Frame)
    ensures |r| == |Split(line, ' ')|
    ensures forall k :: 0 <= k < |r| ==> r[k] == syntax.parseFloat(Split(line, ' ')[k])
  {
    var fields := Split(line, ' ');
    seq(|fields|, k requires 0 <= k < |fields| => syntax.parseFloat(fields[k]))
  }

  /** A frame line written as space-free tokens joined by single spaces gives one sample per token. */
  lemma FrameOfTokens(tokens: seq<string>, syntax: NumberSyntax)
    requires |tokens| >= 1
    requires forall k :: 0 <= k < |tokens| ==> ' ' !in tokens[k]
    ensures |FrameOf(Join(tokens, ' '), syntax)| == |tokens|
    ensures forall k :: 0 <= k < |tokens| ==> FrameOf(Join(tokens, ' '), syntax)[k] == syntax.parseFloat(tokens[k])
  {
    JoinThenSplit(tokens, ' ');
  }

  /** The frame loop: one frame per line, up to the first empty line or the end of the input. */
  function ReadFrames(lines: seq<string>, i: nat, syntax: NumberSyntax): (frames: seq<Frame>)
    ensures forall j :: i <= j < i + |frames| ==> HasLine(lines, j) && frames[j - i] == FrameOf(lines[j], syntax)
    ensures !HasLine(lines, i + |frames|)
    decreases |lines| - i
  {
    if !HasLine(lines, i) then []
    else [FrameOf(lines[i], syntax)] + ReadFrames(lines, i + 1, syntax)
  }

  /** `parse` on the lines of the input. */
  function ParseLines(lines: seq<string>, syntax: NumberSyntax): (r: Result<Bvh, ParseError>)
    ensures r.Failure? && r.error.NoOpenJoint? ==> HasLine(lines, r.error.line)
    ensures r.Failure? && r.error.FrameCountMismatch? ==> r.error.declared != Some(r.error.parsed)
  {
    var h :- ReadHierarchy(lines, 0, [], syntax);
    if h.root.None? then Failure(NoSkeleton)
    else
      var header := ReadHeader(lines, h.next, None, syntax);
      var frames := ReadFrames(lines, header.next, syntax);
      if header.frameCount != Some(|frames|) then Failure(FrameCountMismatch(header.frameCount, |frames|))
      else Success(Bvh(h.root.value, frames, header.frameTime))
  }

  /**
   * `parse`: the input is cut into lines at every newline. A structural error
   * names a non-empty line of the text, counted from zero; a count mismatch
   * carries two different counts.
   */
  function Parse(text: string, syntax: NumberSyntax): (r: Result<Bvh, ParseError>)
    ensures r.Failure? && r.error.NoOpenJoint? ==> HasLine(Split(text, '\n'), r.error.line)
    ensures r.Failure? && r.error.FrameCountMismatch? ==> r.error.declared != Some(r.error.parsed)
  {
    ParseLines(Split(text, '\n'), syntax)
  }

  /**
   * Once the hierarchy has produced a tree, the parse succeeds exactly when
   * the declared frame count equals the number of frame lines after the
   * frame-time line, and fails with both numbers otherwise.
   */
  lemma FrameCountChecked(lines: seq<string>, syntax: NumberSyntax)
    requires ReadHierarchy(lines, 0, [], syntax).Success?
    requires ReadHierarchy(lines, 0, [], syntax).value.root.Some?
    ensures var h := ReadHierarchy(lines, 0, [], syntax).value;
            var header := ReadHeader(lines, h.next, None, syntax);
            var frames := ReadFrames(lines, header.next, syntax);
            && (ParseLines(lines, syntax).Success? <==> header.frameCount == Some(|frames|))
            && (ParseLines(lines, syntax).Failure? ==>
                  ParseLines(lines, syntax).error == FrameCountMismatch(header.frameCount, |frames|))
            && (ParseLines(lines, syntax).Success? ==>
                  ParseLines(lines, syntax).value == Bvh(h.root.value, frames, header.frameTime))
  {
  }

  /**
   * Before the motion section: a hierarchy error is the parse's error, and a
   * hierarchy without `ROOT` fails the parse with `NoSkeleton`.
   */
  lemma HierarchyOutcome(lines: seq<string>, syntax: NumberSyntax)
    ensures ReadHierarchy(lines, 0, [], syntax).Failure? ==>
              ParseLines(lines, syntax) == Failure(ReadHierarchy(lines, 0, [], syntax).error)
    ensures ReadHierarchy(lines, 0, [], syntax).Success? && ReadHierarchy(lines, 0, [], syntax).value.root.None? ==>
              ParseLines(lines, syntax) == Failure(NoSkeleton)
  {
  }

  /**
   * The joint list of a parsed skeleton is in declaration order: its names
   * are those of the `ROOT`, `JOINT` and `End` lines since the last `ROOT`,
   * one joint per line; the root is its only joint without a parent.
   */
  lemma ParsedJointOrder(lines: seq<string>, syntax: NumberSyntax)
    requires ParseLines(lines, syntax).Success?
    ensures var h := ReadHierarchy(lines, 0, [], syntax).value;
            var stop := if h.next < |lines| then h.next else |lines|;
            JointNames(Joints(ParseLines(lines, syntax).value)) == Declared(lines[..stop], [])
    ensures |ParentLinks(ParseLines(lines, syntax).value.root)| == |Joints(ParseLines(lines, syntax).value)|
    ensures forall k :: 0 <= k < |Joints(ParseLines(lines, syntax).value)| ==>
              (ParentLinks(ParseLines(lines, syntax).value.root)[k].None? <==> k == 0)
  {
    var h := ReadHierarchy(lines, 0, [], syntax).value;
    ParsedRoot(lines, syntax);
    HierarchyDeclarationOrder(lines, 0, [], syntax);
    assert JointNames(Flat([])) == [];
    var stop := if h.next < |lines| then h.next else |lines|;
    assert lines[0..stop] == lines[..stop];
    ParentsShape(h.root.value, 0, None);
  }

  /** A parsed skeleton's root is the tree the hierarchy section built. */
  lemma ParsedRoot(lines: seq<string>, syntax: NumberSyntax)
    requires ParseLines(lines, syntax).Success?
    ensures ReadHierarchy(lines, 0, [], syntax).Success?
    ensures ReadHierarchy(lines, 0, [], syntax).value.root == Some(ParseLines(lines, syntax).value.root)
  {
  }

  /** Parsing text is parsing its lines: text made of newline-free lines is cut back into them. */
  lemma ParseJoinedLines(lines: seq<string>, syntax: NumberSyntax)
    requires |lines| >= 1
    requires forall k :: 0 <= k < |lines| ==> '\n' !in lines[k]
    ensures Parse(Join(lines, '\n'), syntax) == ParseLines(lines, syntax)
  {
    JoinThenSplit(lines, '\n');
  }
}
