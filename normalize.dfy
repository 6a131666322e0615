/**
  The normalizer itself (normalize.ts:37-95): one pass over the delta's ops
  that accumulates the pending text and indent, and places every non-blank
  line with a stack of open nodes (see the `Spine` module for how that stack
  is modelled).
*/
module Normalize {
  import opened JsString
  import opened Outline
  import opened DeltaLines
  import opened Spine

  /** normalize.ts:1-5; `NoStatus` is the string "NONE". */
  datatype Status = AtRiskUncontrolled | AtRiskUnderControl | OnTrack | NoStatus

  /** normalize.ts:12-16. */
  datatype Project = Project(name: string, status: Status, features: seq<FeatureNode>)

  /** What the normalizer returns for `ops`: the reference outline of the
      lines the ops spell out, indents dropped. */
  function Features(ops: seq<DeltaOp>): seq<FeatureNode> {
    Strip(Build(SplitLines(ops)))
  }

  /** The reference outline one op later: a terminator after non-blank
      text inserts that text at its effective indent; any other op leaves
      the outline as it was. */
  lemma {:induction false} OutlineSnoc(ops: seq<DeltaOp>, op: DeltaOp)
    ensures IsTerminator(op) && Trim(Concat(Pending(ops))) != "" ==>
              (Build(SplitLines(ops + [op]))
                 == Insert(Build(SplitLines(ops)),
                           Line(Trim(Concat(Pending(ops))), LineIndent(PendingIndent(Pending(ops)), op))))
    ensures !(IsTerminator(op) && Trim(Concat(Pending(ops))) != "") ==>
              Build(SplitLines(ops + [op])) == Build(SplitLines(ops))
  {
    SplitSnoc(ops, op);
    var p := SplitLines(ops);
    var text := Trim(Concat(Pending(ops)));
    if IsTerminator(op) && text != "" {
      var l := Line(text, LineIndent(PendingIndent(Pending(ops)), op));
      assert LineOf(Pending(ops), op) == [l];
      assert SplitLines(ops + [op]) == p + [l];
      BuildSnoc(p, l);
    } else if IsTerminator(op) {
      assert LineOf(Pending(ops), op) == [];
      assert SplitLines(ops + [op]) == p;
    } else {
      assert SplitLines(ops + [op]) == p;
    }
  }

  /** The accumulators and the outline so far agree with the ops `done`
      already replayed. */
  ghost predicate Replayed(done: seq<DeltaOp>, currentText: string, currentIndent: int, g: seq<Tree>) {
    var holds :=
      && currentText == Concat(Pending(done))
      && currentIndent == PendingIndent(Pending(done))
      && g == Build(SplitLines(done));
    holds
  }

  /** Replaying one more op as the loop body does keeps `Replayed`. */
  lemma {:induction false} ReplayStep(done: seq<DeltaOp>, op: DeltaOp, currentText: string, currentIndent: int, g: seq<Tree>)
    requires Replayed(done, currentText, currentIndent, g)
    ensures IsTerminator(op) && Trim(currentText) != "" ==>
              Replayed(done + [op], "", 0, Insert(g, Line(Trim(currentText), LineIndent(currentIndent, op))))
    ensures IsTerminator(op) && Trim(currentText) == "" ==>
              Replayed(done + [op], "", 0, g)
    ensures !IsTerminator(op) ==>
              Replayed(done + [op], currentText + StripNewlines(op.insert), IndentOrZero(op), g)
  {
    AccumulatorsSnoc(done, op);
    OutlineSnoc(done, op);
  }

  // ---------------------------------------------------------------------
  // The normalizer

  /** Popping the entries indented at least `d` (normalize.ts:56-61): what
      is left are the entries below `d`, still standing for `g`, and the
      level just above them ends, if at all, with a tree indented at least
      `d`. */
  method PopDeeper(features: seq<FeatureNode>, stack: seq<Frame>, d: int, ghost g: seq<Tree>)
    returns (features': seq<FeatureNode>, stack': seq<Frame>)
    requires Between(features, stack, g)
    ensures Represents(features', stack', g) && Increasing(stack') && |stack'| <= |stack|
    ensures forall i :: 0 <= i < |stack'| ==> stack'[i].indent < d
    ensures var lv := LevelOf(g, |stack'|); lv == [] || lv[|lv| - 1].line.indent >= d
  {
    features', stack' := features, stack;
    while stack' != [] && stack'[|stack'| - 1].indent >= d
      invariant |stack'| <= |stack|
      invariant Represents(features', stack', g) && Increasing(stack')
      invariant var lv := LevelOf(g, |stack'|); lv == [] || lv[|lv| - 1].line.indent >= d
      decreases |stack'|
    {
      RepresentsPop(features', stack', g);
      IncreasingPop(features', stack');
      features', stack' := PopFrame(features', stack').0, PopFrame(features', stack').1;
    }
    IncreasingBelow(stack', d);
  }

  /** Placing a non-blank line (normalize.ts:56-75): entries indented at
      least as deep are popped, and the line is pushed as the new top, so
      that it ends up as the last child of the entry below it or, on an
      empty stack, as the last root. */
  method PlaceLine(features: seq<FeatureNode>, stack: seq<Frame>, l: Line, ghost g: seq<Tree>)
    returns (features': seq<FeatureNode>, stack': seq<Frame>)
    requires Between(features, stack, g)
    ensures Between(features', stack', Insert(g, l))
    ensures 1 <= |stack'| <= |stack| + 1 && stack'[|stack'| - 1] == Frame(l.text, l.indent, [])
    ensures forall i :: 0 <= i < |stack'| - 1 ==> stack'[i].indent < l.indent
  {
    var below;
    features', below := PopDeeper(features, stack, l.indent, g);
    RepresentsPush(features', below, g, l);
    IncreasingPush(below, Frame(l.text, l.indent, []));
    stack' := below + [Frame(l.text, l.indent, [])];
  }

  /** With nothing left to place, folding the whole stack down gives the
      outline the stack and the finished roots stand for. */
  method CloseAll(features: seq<FeatureNode>, stack: seq<Frame>, ghost g: seq<Tree>)
    returns (features': seq<FeatureNode>)
    requires Represents(features, stack, g)
    ensures features' == Strip(g)
  {
    features' := features;
    var rest := stack;
    while rest != []
      invariant Represents(features', rest, g)
      decreases |rest|
    {
      RepresentsPop(features', rest, g);
      features', rest := PopFrame(features', rest).0, PopFrame(features', rest).1;
    }
  }

  /** A list-terminating break (normalize.ts:46-76): the pending text,
      trimmed, is placed at the terminator's indent when that is non-zero
      and at the pending one otherwise; blank text places nothing and leaves
      stack and roots as they were. */
  method EndLine(features: seq<FeatureNode>, stack: seq<Frame>, currentText: string, currentIndent: int,
                 op: DeltaOp, ghost g: seq<Tree>)
    returns (features': seq<FeatureNode>, stack': seq<Frame>)
    requires IsTerminator(op)
    requires Between(features, stack, g)
    ensures Trim(currentText) == "" ==> features' == features && stack' == stack
    ensures Trim(currentText) != "" ==>
              var g' := Insert(g, Line(Trim(currentText), LineIndent(currentIndent, op)));
              Between(features', stack', g')
  {
    features', stack' := features, stack;
    var text := Trim(currentText);
    if text != "" {
      var indent := currentIndent;
      if HasTruthyIndent(op) {
        indent := op.attributes.value.indent.value;
      }
      features', stack' := PlaceLine(features, stack, Line(text, indent), g);
    }
  }

  /** One pass of the loop body (normalize.ts:45-83): a list-terminating
      break ends the pending line and resets both accumulators; any other op
      adds its text, line feeds removed, and sets the pending indent to its
      own, or 0. */
  method ReplayOp(ops: seq<DeltaOp>, i: nat, features: seq<FeatureNode>, stack: seq<Frame>,
                  currentText: string, currentIndent: int, ghost g: seq<Tree>)
    returns (features': seq<FeatureNode>, stack': seq<Frame>,
             currentText': string, currentIndent': int, ghost g': seq<Tree>)
    requires i < |ops|
    requires Replayed(ops[..i], currentText, currentIndent, g) && Between(features, stack, g)
    ensures Replayed(ops[..i + 1], currentText', currentIndent', g') && Between(features', stack', g')
    ensures !IsTerminator(ops[i]) ==> features' == features && stack' == stack
    ensures Trim(currentText) == "" ==> features' == features && stack' == stack
  {
    var op := ops[i];
    assert ops[..i + 1] == ops[..i] + [op];
    ReplayStep(ops[..i], op, currentText, currentIndent, g);
    features', stack', g' := features, stack, g;
    if IsTerminator(op) {
      features', stack' := EndLine(features, stack, currentText, currentIndent, op, g);
      if Trim(currentText) != "" {
        g' := Insert(g, Line(Trim(currentText), LineIndent(currentIndent, op)));
      }
      currentText' := "";
      currentIndent' := 0;
    } else {
      currentText' := currentText + StripNewlines(op.insert);
      currentIndent' := IndentOrZero(op);
    }
  }

  /** After the last op (normalize.ts:86): the pending text is dropped and
      the open entries are folded down, giving the reference outline. */
  method Finish(ops: seq<DeltaOp>, features: seq<FeatureNode>, stack: seq<Frame>,
                currentText: string, currentIndent: int, ghost g: seq<Tree>)
    returns (features': seq<FeatureNode>)
    requires Replayed(ops[..|ops|], currentText, currentIndent, g) && Between(features, stack, g)
    ensures features' == Features(ops)
  {
    assert ops[..|ops|] == ops;
    features' := CloseAll(features, stack, g);
  }

  /** `parsedDeltaToFeatures` (normalize.ts:37-87): the ops replayed in
      order give the reference outline of the lines they spell out. */
  method ParsedDeltaToFeatures(delta: Delta) returns (features: seq<FeatureNode>)
    ensures features == Features(delta.ops)
  {
    var ops := delta.ops;
    var stack: seq<Frame> := [];
    features := [];
    var currentText := "";
    var currentIndent := 0;
    ghost var g: seq<Tree> := [];
    for i := 0 to |ops|
      invariant Replayed(ops[..i], currentText, currentIndent, g)
      invariant Between(features, stack, g)
    {
      features, stack, currentText, currentIndent, g :=
        ReplayOp(ops, i, features, stack, currentText, currentIndent, g);
    }
    features := Finish(ops, features, stack, currentText, currentIndent, g);
  }

  /** `createProject` (normalize.ts:89-95): a new project is on track, keeps
      its name, and holds the normalized features of its delta. */
  method CreateProject(name: string, delta: Delta) returns (project: Project)
    ensures project.status == OnTrack
    ensures project.name == name
    ensures project.features == Features(delta.ops)
  {
    var features := ParsedDeltaToFeatures(delta);
    project := Project(name, OnTrack, features);
  }

  // ---------------------------------------------------------------------
  // What the returned forest looks like

  /** Every value is the trimmed text of a line: non-blank, without leading
      or trailing white space and without a line feed (normalize.ts:47-50, 81). */
  lemma {:induction false} FeatureValuesWellFormed(ops: seq<DeltaOp>)
    ensures forall v :: v in Preorder(Features(ops)) ==> WellFormedText(v)
  {
    var lines := SplitLines(ops);
    BuildPreorder(lines);
    LinesWellFormed(ops);
    forall v | v in Preorder(Features(ops)) ensures WellFormedText(v) {
      var j :| 0 <= j < |Texts(lines)| && Texts(lines)[j] == v;
      TextsAt(lines, j);
      assert lines[j] in lines;
    }
  }

  /** There are as many nodes as list-terminating breaks whose pending text
      is not blank (normalize.ts:45-50). */
  lemma {:induction false} FeatureCount(ops: seq<DeltaOp>)
    ensures |Preorder(Features(ops))| == |LineEnds(ops)|
  {
    var lines := SplitLines(ops);
    BuildPreorder(lines);
    LineCount(ops);
    if lines != [] {
      TextsAt(lines, 0);
    }
  }

  /** Read in pre-order, the nodes list the lines in the order their
      terminators come in the delta (normalize.ts:63-75). */
  lemma {:induction false} FeaturesInDocumentOrder(ops: seq<DeltaOp>)
    ensures Preorder(Features(ops)) == Texts(SplitLines(ops))
  {
    BuildPreorder(SplitLines(ops));
  }

  /** Read in pre-order, each node's parent is the node of the nearest
      earlier line indented strictly less, and a node without one is a root
      (normalize.ts:56-75). */
  lemma {:induction false} FeatureParents(ops: seq<DeltaOp>)
    ensures ParentPositions(Features(ops), 0, -1) == Parents(SplitLines(ops))
  {
    BuildParents(SplitLines(ops), 0, -1);
    ShiftedParentsAtTop(SplitLines(ops));
  }

  /** The node of line `j` is a root exactly when no earlier line is indented
      less; otherwise its parent is an earlier line indented strictly less,
      and every line between them is indented at least as deep as line `j`
      (normalize.ts:56-66). */
  lemma {:induction false} ChildDeeperThanParent(ops: seq<DeltaOp>, j: nat)
    requires j < |SplitLines(ops)|
    ensures |ParentPositions(Features(ops), 0, -1)| == |SplitLines(ops)|
    ensures var lines := SplitLines(ops);
            var q := ParentPositions(Features(ops), 0, -1)[j];
            && (q == -1 <==> forall i :: 0 <= i < j ==> lines[i].indent >= lines[j].indent)
            && (q != -1 ==> 0 <= q < j && lines[q].indent < lines[j].indent)
            && (q != -1 ==> forall i :: q < i < j ==> lines[i].indent >= lines[j].indent)
  {
    var lines := SplitLines(ops);
    FeatureParents(ops);
    ParentsAt(lines, j);
    ParentIsNearestShallower(lines, j);
  }

  /** A line indented exactly as deep as the one before it gets the same
      parent: equal indents never nest (normalize.ts:57, `>=`). */
  lemma {:induction false} EqualIndentSiblings(ops: seq<DeltaOp>, j: nat)
    requires 1 <= j < |SplitLines(ops)|
    requires SplitLines(ops)[j].indent == SplitLines(ops)[j - 1].indent
    ensures |ParentPositions(Features(ops), 0, -1)| == |SplitLines(ops)|
    ensures ParentPositions(Features(ops), 0, -1)[j] == ParentPositions(Features(ops), 0, -1)[j - 1]
  {
    var lines := SplitLines(ops);
    FeatureParents(ops);
    ParentsAt(lines, j);
    ParentsAt(lines, j - 1);
    EqualIndentIsSibling(lines, j);
  }

  /** No node carries an empty `children` array: a node gets one only with
      its first child (normalize.ts:50, 69-71). */
  lemma {:induction false} LeavesHaveNoChildren(ops: seq<DeltaOp>)
    ensures NoEmptyChildren(Features(ops))
  {
    StripNoEmptyChildren(Build(SplitLines(ops)));
  }

  /** Without a list-terminating break the forest is empty. */
  lemma {:induction false} NoTerminatorNoFeatures(ops: seq<DeltaOp>)
    requires forall i :: 0 <= i < |ops| ==> !IsTerminator(ops[i])
    ensures Features(ops) == []
  {
    NoTerminatorNoLines(ops);
  }

  /** Text after the last list-terminating break never reaches the forest
      (normalize.ts:86). */
  lemma {:induction false} TrailingTextDropped(ops: seq<DeltaOp>, tail: seq<DeltaOp>)
    requires forall i :: 0 <= i < |tail| ==> !IsTerminator(tail[i])
    ensures Features(ops + tail) == Features(ops)
  {
    TrailingOpsEndNoLine(ops, tail);
  }

  /** A terminator after blank text adds no node (normalize.ts:47-49). */
  lemma {:induction false} BlankTerminatorAddsNothing(ops: seq<DeltaOp>, op: DeltaOp)
    requires IsTerminator(op) && AllWhiteSpace(Concat(Pending(ops)))
    ensures Features(ops + [op]) == Features(ops)
  {
    BlankLineDropped(ops, op);
  }

  /** A terminator after non-blank text adds a new last root, a leaf,
      exactly when its line is indented no deeper than every line before it
      (normalize.ts:56-66). */
  lemma {:induction false} NewRootIffShallowest(ops: seq<DeltaOp>, op: DeltaOp)
    requires IsTerminator(op) && !AllWhiteSpace(Concat(Pending(ops)))
    ensures var l := Line(Trim(Concat(Pending(ops))), LineIndent(PendingIndent(Pending(ops)), op));
            (Features(ops + [op]) == Features(ops) + [Leaf(l.text)])
            <==> forall i :: 0 <= i < |SplitLines(ops)| ==> SplitLines(ops)[i].indent >= l.indent
  {
    var lines := SplitLines(ops);
    var l := Line(Trim(Concat(Pending(ops))), LineIndent(PendingIndent(Pending(ops)), op));
    LineEnded(ops, op);
    assert SplitLines(ops + [op]) == lines + [l];
    NewRootIffRead(lines, l);
  }
}
