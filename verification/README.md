# bvh.js: skeleton, frame evaluator and parser

This project is a Dafny model of the core of `bvh.js`, a reader and player
for motion-capture files in the BVH format. The model covers:

- the `CHANNELS` table of channel kinds;
- the joint tree (`Node`) with `isRoot`, `isSite` and `update(index, frame)`;
- the skeleton (`Bvh`) with `update(pos)`;
- `Parser.parse`, which reads the hierarchy section, then the motion header,
  then the frame lines.

The model is split into modules that follow the program's structure.

- `Wrappers`: `Option` and `Result`.
- `Numbers`: JavaScript numbers as `Finite(real) | NaN`, `Vector3`, the
  degree-to-radian conversion, and the two number parsers. The parsers are
  left abstract as a `NumberSyntax` parameter.
- `Text`: `String.prototype.split` with a one-character separator, and
  whitespace trimming.
- `Channels`: the six channel kinds, their codes and their names.
- `Skeleton`: immutable joint trees.
  - A node's identity is its position in the pre-order of the tree.
  - The skeleton's flat `joints` list is that pre-order.
  - `parent` references are pre-order positions.
- `Evaluator`: `Node.update` as a cursor threaded through one frame, and
  `Bvh.update`.
  - A flat reference evaluation, `EvalJoints`, gives joint `k` the samples
    that follow the samples of the joints before it.
  - The tree evaluation is proved equal to it.
- `Hierarchy`: the parser's chain of open joints.
  - It is a stack of partial trees, root first. A joint is attached to its
    parent when it is closed.
  - The tree built so far, `Tree(stack)`, is what the program's root object
    holds at that moment.
- `Parser`:
  - one hierarchy line as `Step`;
  - the three loops of `parse` as `ReadHierarchy`, `ReadHeader` and
    `ReadFrames`;
  - the whole parse as `ParseLines` and `Parse`.
- `Scenarios`: two small files.
  - One has a single joint and one frame. It is parsed, and frame 0 is
    evaluated with `Update`.
  - The other has a root, a joint and an end site, and no frames. Only its
    parse is stated: the joint order and the parent references.

## Model

| member | source | states |
|---|---|---|
| `Channels.FromCode` | bvh.js:1-8 | exactly the codes 1 to 6 denote a channel kind, each a different one, and `Code` inverts it |
| `Channels.FromName` | bvh.js:129-141 | a token denotes a kind exactly when it is that kind's name (`Xposition` … `Zrotation`) |
| `Channels.Recognised` | bvh.js:126-143 | the kinds appended for a `CHANNELS` line are exactly those whose names occur among the tokens, never more than the tokens; other tokens are skipped |
| `Channels.RecognisedAppend` | bvh.js:127-142 | tokens are recognised one at a time and in order: recognising a concatenation concatenates the results |
| `Channels.ChannelsOf` | bvh.js:125-143 | a `CHANNELS` line with at most two fields appends nothing; otherwise it appends the recognised kinds of the fields from the third on, in field order and with repeats, so a kind is appended exactly when its name is one of those fields, and never more kinds than those fields |
| `Channels.ChannelsLineNames` | bvh.js:125-143 | a `CHANNELS` line that lists the names of any kinds appends exactly those kinds, in the listed order and with repeats, whatever its second field |
| `Channels.ChannelsIgnoreCount` | bvh.js:125-128 | the declared count in the second field of a `CHANNELS` line has no effect on the kinds appended |
| `Channels.RecognisedNames` | bvh.js:127-142 | writing out the names of any list of kinds and recognising them gives back that list, in order |
| `Skeleton.IsRoot` | bvh.js:26-28 | a joint of a tree has no parent reference exactly when it is the root, at position 0 |
| `Skeleton.IsSite` | bvh.js:29-31 | a node has no children exactly when its subtree is the node alone |
| `Skeleton.ParentsShape` | bvh.js:113-117 | every joint has one parent reference; every joint other than the subtree's top has a parent that lies inside the subtree, strictly before it |
| `Evaluator.Write` | bvh.js:38-50 | one step of the channel loop sets the component of its own kind (position as read, rotation converted to radians) and leaves the other five alone |
| `Evaluator.LastSlot` | bvh.js:35-52 | the last slot holding a kind is in range, holds that kind, has none of that kind after it, and is missing exactly when the kind is not declared |
| `Evaluator.ReadChannelsSpec` | bvh.js:35-52 | after the channel loop, each component holds the converted sample of the last slot of its kind, or its earlier value when the kind is not declared |
| `Evaluator.PosedSpec` | bvh.js:33-54 | after `update`, a node's translation on each axis is the sampled position plus the initial offset, and its rotation is the sampled rotation; an axis without a channel samples zero |
| `Evaluator.NoPositionChannels` | bvh.js:33-54 | a node without position channels ends with a translation equal to its initial offset |
| `Evaluator.BareJointAtRest` | bvh.js:17-54 | a joint as the constructor makes it, with no channels and a zero offset, is posed at zero translation and zero rotation for every cursor and frame |
| `Evaluator.Posed` | bvh.js:32-54 | posing a joint keeps its name, channels and offset |
| `Evaluator.Eval` | bvh.js:32-61 | the cursor `update` returns is the start cursor plus the channel count of the whole subtree |
| `Evaluator.EvalChildren` | bvh.js:56-58 | the children loop evaluates every child and moves the cursor by the channel count of all their subtrees |
| `Evaluator.EvalJoints` | bvh.js:32-61 | the reference evaluation of a flat joint list poses every joint and consumes the sum of their channel counts |
| `Evaluator.EvalJointsSlot` | bvh.js:35-58 | in the reference evaluation, joint `k` reads its samples from the sum of the channel counts of the joints before it |
| `Evaluator.EvalJointsAppend` | bvh.js:56-58 | evaluating two joint lists in a row is evaluating the first, then the second from where the first stopped |
| `Evaluator.EvalIsFlat` | bvh.js:32-61 | the pre-order of the evaluated tree equals the reference evaluation of the pre-order: the tree walk and the flat joint list agree joint by joint |
| `Evaluator.EvalChildrenIsFlat` | bvh.js:56-58 | the same agreement for the children loop |
| `Evaluator.NodeInOrder` | bvh.js:32-58 | `update` poses the node from `index`; child `k` starts where the children before it stopped; the number of children is kept |
| `Evaluator.FirstChildStart` | bvh.js:51-57 | the first child starts right after the node's own samples |
| `Evaluator.ChildrenInOrder` | bvh.js:56-58 | in the children loop, child `k` starts at the cursor the first `k` children return, which is the start plus their channel count |
| `Evaluator.PosedForgetsPose` | bvh.js:33-54 | posing a joint that was already posed gives the same joint as posing the original: the previous pose leaves no trace |
| `Evaluator.EvalForgetsPreviousPose` | bvh.js:33-34 | translation and rotation are reset before the channels are read, so evaluating an already evaluated tree gives the same result as evaluating the original |
| `Evaluator.EvalKeepsParents` | bvh.js:32-61 | `update` never changes the tree's shape: the evaluated tree has the same parent reference at every position |
| `Evaluator.Update` | bvh.js:84-89 | an index outside the frame list changes nothing; otherwise frames and frame time are kept, every joint of the flat list gets the pose the reference evaluation of frame `pos` gives it, and every parent reference is kept |
| `Evaluator.UpdateSlices` | bvh.js:84-89 | after `update(pos)`, joint `k` reads the frame from the channel count of the joints before it, and the root consumes exactly the channel count of all joints |
| `Evaluator.UpdateIdempotent` | bvh.js:84-89 | updating twice to the same frame is updating once |
| `Evaluator.UpdateForgetsEarlierFrames` | bvh.js:84-89 | the pose after `update(q)` does not depend on any earlier `update(p)` |
| `Hierarchy.NewJoint` | bvh.js:17-25 | a new node has the given name, no channels, a zero initial offset and a zero pose |
| `Hierarchy.AddChild` | bvh.js:116 | attaching a child as the last child puts its joints after all the joints of the parent's subtree |
| `Hierarchy.AddChildParents` | bvh.js:115-116 | the parent reference of the attached child is the parent's position |
| `Hierarchy.TreePush` | bvh.js:115-117 | opening a joint appends its joints to the flat list, with the open joint as its parent |
| `Hierarchy.OpenJoint` | bvh.js:113-118 | `JOINT` or `End` appends one new joint to the flat list, with the open joint as its parent, and makes the new joint the open one |
| `Hierarchy.SetOffset` | bvh.js:119-124 | `OFFSET` changes the open joint's offset and nothing else: the other joints and all parent references are unchanged |
| `Hierarchy.AddChannels` | bvh.js:125-144 | `CHANNELS` appends kinds to the open joint's channels and changes nothing else |
| `Hierarchy.CloseJoint` | bvh.js:145-150 | `}` below the root leaves the tree unchanged and makes the parent of the closed joint the open one |
| `Parser.Step` | bvh.js:107-151 | a hierarchy line fails exactly when it needs an open joint and there is none: `JOINT`, `End`, `OFFSET`, `}`, or a `CHANNELS` line with a recognised name, before any `ROOT`; the hierarchy ends exactly on a `}` that closes the root, and then hands back the tree built so far, with the joints and parent references read up to that line |
| `Parser.StepEdits` | bvh.js:107-151 | once a joint is open (`Parser.StepWithoutJoint` covers the case with none): `ROOT` starts a new one-joint tree; `JOINT` and `End` append one joint whose parent is the open joint and open it; `OFFSET` sets the open joint's offset from fields 1 to 3; `CHANNELS` appends the recognised kinds to the open joint; `}` below the root keeps the tree and opens the parent; every other line changes nothing |
| `Parser.StepWithoutJoint` | bvh.js:107-151 | with no joint open: `ROOT` opens a fresh joint of the given name, with no channels, a zero offset and no parent, at position 0 of the flat list; any other line that does not fail leaves no joint open |
| `Parser.ReadHierarchy` | bvh.js:104-155 | the hierarchy loop moves past the line it stops at, fails only for a missing open joint and then names a non-empty line it reached, and yields a tree once a `ROOT` has been seen |
| `Parser.HierarchyRunsOut` | bvh.js:104-155 | when the hierarchy loop reaches an empty line or the end of the input with a joint open, it hands back the tree built so far, with the joints and parent references read up to there, and moves past that line |
| `Parser.HierarchyClosesRoot` | bvh.js:145-155 | at the `}` that closes the root, the hierarchy loop hands back the tree built so far and moves past that line |
| `Parser.HierarchySkipsOnlyLines` | bvh.js:104 | every line the hierarchy loop stepped over before the one it stops on is non-empty |
| `Parser.HierarchyStopLine` | bvh.js:104-155 | the line the hierarchy loop stops on is empty, past the input, or a `}` line |
| `Parser.IndentedCrlfBraceStep` | bvh.js:105-150 | on the line `"\t}\r"` below the root, the strip as written leaves the joint open, while the trimmed fields close it |
| `Parser.StepDeclares` | bvh.js:108-118 | each line changes the joint list's names as declared: `ROOT` starts it over, `JOINT` and `End` append one name, and every other line keeps it |
| `Parser.HierarchyDeclarationOrder` | bvh.js:104-155 | the joint list of the finished hierarchy holds the names of the `ROOT`, `JOINT` and `End` lines in file order |
| `Parser.ReadHeader` | bvh.js:157-166 | the header loop skips only non-empty lines that are not `Frame` lines, ends on a `Frame` line exactly when it sets the frame time, and takes the time from that line's third field; without a `Frame` line it stops only at an empty line or at the end of the input |
| `Parser.HeaderCount` | bvh.js:157-166 | the declared frame count is the value of the last `Frames:` line before the `Frame` line, and stays as it was when there is no such line |
| `Parser.FrameOf` | bvh.js:169-175 | a frame line gives one sample per space-separated field, in order, each the field through `parseFloat`; empty fields count too |
| `Parser.FrameOfTokens` | bvh.js:169-175 | a frame line of space-free tokens joined by single spaces gives exactly one sample per token, in order |
| `Parser.ReadFrames` | bvh.js:168-177 | one frame per line, each the `parseFloat` of every field, up to the first empty line or the end of the input |
| `Parser.ParseLines` | bvh.js:104-181 | a structural error names a non-empty line of the input; a frame count mismatch is reported only when the declared count differs from the number of frames |
| `Parser.Parse` | bvh.js:98-99 | the text is cut at newlines; a structural error names a non-empty line of the text, and a count mismatch carries two different counts |
| `Parser.HierarchyOutcome` | bvh.js:104-163 | when the hierarchy loop fails, the parse fails with the same error; when it ends without any `ROOT`, the parse fails with `NoSkeleton` |
| `Parser.FrameCountChecked` | bvh.js:157-183 | once the hierarchy has produced a tree, the parse succeeds exactly when the declared frame count equals the number of frames; it otherwise fails with both numbers, and on success it returns that tree, those frames and the frame time |
| `Parser.ParsedJointOrder` | bvh.js:108-118 | a parsed skeleton's joint list holds the declared names in file order, and the root is its only joint without a parent |
| `Parser.ParsedRoot` | bvh.js:108-110 | a parsed skeleton's root is the tree the hierarchy section built |
| `Parser.ParseJoinedLines` | bvh.js:99 | parsing text is parsing the lines it is made of |
| `Text.Split` | bvh.js:106 | `split` gives at least one part, no part holds the separator, and joining the parts gives back the text |
| `Text.JoinThenSplit` | bvh.js:99 | splitting undoes joining whenever no part holds the separator |
| `Text.Fields` | bvh.js:105-106 | a hierarchy line's fields are the pieces of the trimmed line between single spaces: there is at least one, none holds a space, and joining them gives the trimmed line |
| `Text.Trim` | bvh.js:105 | the trimmed line is a slice that neither starts nor ends with whitespace, and only whitespace is cut off |
| `Text.TrimPadded` | bvh.js:105 | trimming a word with whitespace before it gives back the word |
| `Text.StripFirstMatch` | bvh.js:105 | the replace as written removes leading whitespace when there is any, and trailing whitespace only otherwise |
| `Text.StripFirstMatchMissesTrailing` | bvh.js:105 | the replace as written differs from a trim exactly on lines with leading whitespace and, behind it, trailing whitespace |
| `Text.IndentedCrlfBrace` | bvh.js:105 | an indented `}` with a CRLF line end keeps its carriage return under the replace as written, but trims to `}` |
| `Numbers.HalfTurnIsPi` | bvh.js:45 | a rotation sample of 180 degrees is stored as pi radians, and 0 as 0 |
| `Scenarios.LineFields` | bvh.js:105-106 | a line of visible words, at any indentation, has those words as its fields |
| `Scenarios.SingleJointFileLines` | bvh.js:98-184 | lines of the single-joint file, with any indentation, have exactly the fields of the single-joint scenario |
| `Scenarios.NestedFileLines` | bvh.js:98-184 | lines of the nested file, each joint's body indented one tab deeper, have exactly the fields of the nested scenario |
| `Scenarios.SingleJointScenario` | bvh.js:98-184 | a file with one root, three position channels and one frame parses to one joint, `hip`, with one frame of three samples, and frame 0 places `hip` at the sampled position with no rotation |
| `Scenarios.NestedScenario` | bvh.js:98-184 | a file with a root, a joint and an end site parses to three joints in that order; the joint's parent is the root and the end site's parent is the joint |

## Left out

- The jQuery start-up code, the sound player, the renderer (`Perfume`),
  `Node.cout` and `__bind` are not part of this model. They are display
  and I/O.
- Floating point is not modelled. A number is an exact real or NaN.
  Rounding, infinities and negative zero are left out. `Math.PI` is the
  real 3.141592653589793.
- `parseFloat` and `parseInt` are parameters (`NumberSyntax`).
  `parseInt`'s NaN is `None`.
  - Every member outside `Scenarios` holds for any choice of them.
  - The scenarios require only the values of the literals in their files,
    such as `parseFloat("1.0") == Finite(1.0)` and `parseInt("1") == Some(1)`.
- `Bvh.update(pos)` takes an integer index. Fractional and NaN indices are
  not modelled.
- Object identity is not modelled. The program shares mutable `Node`
  objects between the tree and the flat list. The model computes the flat
  list as the pre-order of the tree, and parent references as pre-order
  positions.
- The program attaches a child to its parent when the child is opened. The
  model attaches it when it is closed. `Tree(stack)` is the tree as the
  program holds it at each line.
- Edge cases of `parse` are modelled as the code handles them:
  - A second `ROOT` line (bvh.js:108-111) starts a new skeleton and drops
    the joints read before it.
  - Unrecognised channel names are skipped (bvh.js:127-142).
  - A malformed number is whatever `parseFloat` or `parseInt` makes of it,
    NaN or `None` included. No error is raised.
  - Each of the three loops (bvh.js:104, 158 and 168) stops at the first
    empty line or at the end of the input.
  - The motion lines are split as they are, without any stripping
    (bvh.js:159 and 169).
- A JavaScript `TypeError` is modelled as an error value:
  - `NoOpenJoint(line)` is a structural line with no open joint.
  - `NoSkeleton` is a parse that never saw `ROOT`.
  - The thrown `"Invalid frames!"` is `FrameCountMismatch`.
- Parser.ReadHierarchy: its own contract states progress and the error
  only. What each line builds is stated by `Parser.Step` and the
  `Hierarchy` members. The tree handed back at either exit is stated by
  `Parser.HierarchyClosesRoot` and `Parser.HierarchyRunsOut`, and the line the loop stops
  on by `Parser.HierarchySkipsOnlyLines` and `Parser.HierarchyStopLine`.
  The joint names are stated by `Parser.HierarchyDeclarationOrder`.
- Text.Fields: the hierarchy lines are trimmed at both ends, which is the
  corrected behaviour of the finding below. The program strips leading
  whitespace when there is any, and trailing whitespace only otherwise.
  The two differ only on lines with whitespace at both ends, such as an
  indented line with a CRLF line end.
  `Text.StripFirstMatch` models the strip as written, and
  `Parser.IndentedCrlfBraceStep` shows the effect on the parse.
- Parser.ReadHeader: its own contract does not state the frame count.
  `Parser.HeaderCount` states it.
- Parser.ParseLines: its own contract states only what its errors carry.
  `Parser.HierarchyOutcome` states the outcome when the hierarchy loop
  fails or sees no `ROOT`, and `Parser.FrameCountChecked` states it once
  the hierarchy has produced a tree.
- Scenarios.SingleJointScenario and Scenarios.NestedScenario are stated
  over lines with the given fields, not over one literal text.
  `Scenarios.SingleJointFileLines` and `Scenarios.NestedFileLines` show
  that such lines exist.

## Findings

| source | as written | input that shows it | evidently intended | confidence | as-written member | corrected member |
|---|---|---|---|---|---|---|
| bvh.js:105 | The whitespace `replace` (pattern `^\s+` or `\s+$`) has no `g` flag. It replaces only the first match, so an indented line keeps its trailing whitespace. | the line `"\t}\r"` (an indented closing brace with a CRLF line end) becomes `"}\r"`. That does not match `"}"`, so the joint is never closed (`Parser.IndentedCrlfBraceStep`). | remove whitespace from both ends, as `Text.Trim` does; `Text.Fields` and the parser use `Text.Trim` | high; not executed | `Text.StripFirstMatch` | `Text.Trim` |
