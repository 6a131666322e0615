/**
  The outline a delta is normalized into, and a reference definition of which
  tree a sequence of indented lines stands for.

  `FeatureNode` is the output type of normalize.ts:7-10. `Tree` is the same
  shape with every node's effective indent kept; the normalizer keeps that
  indent only on its stack, and `Strip` forgets it.
*/
module Outline {
  import opened Seqs
  /** One terminated, non-blank outline line: its trimmed text and the indent
      it is placed by. */
  datatype Line = Line(text: string, indent: int)

  /** normalize.ts:7-10. A `Leaf` is the object with no `children` field at
      all; the array is created when the first child is attached, so a `Node`
      that the normalizer builds never has an empty one. */
  datatype FeatureNode = Leaf(value: string) | Node(value: string, children: seq<FeatureNode>)

  /** An outline node that remembers the line, indent included, it came from. */
  datatype Tree = Tree(line: Line, kids: seq<Tree>)

  /** The node `{ value }` with `kids` attached, if any. */
  function MkNode(value: string, kids: seq<FeatureNode>): FeatureNode {
    if kids == [] then Leaf(value) else Node(value, kids)
  }

  /** The children of a node; a leaf has none. */
  function Kids(n: FeatureNode): seq<FeatureNode> {
    if n.Node? then n.children else []
  }

  /** The forest the normalizer returns for an indented forest. */
  function Strip(f: seq<Tree>): (r: seq<FeatureNode>)
    decreases f
  {
    if f == [] then []
    else [MkNode(f[0].line.text, Strip(f[0].kids))] + Strip(f[1..])
  }

  // ---------------------------------------------------------------------
  // Reading a forest back: pre-order values and parent positions

  /** The values of a forest in pre-order: a node, then its children's
      subtrees in order, then the following siblings. */
  function Preorder(f: seq<FeatureNode>): seq<string>
    decreases f
  {
    if f == [] then []
    else match f[0]
      case Leaf(v) => [v] + Preorder(f[1..])
      case Node(v, ks) => [v] + Preorder(ks) + Preorder(f[1..])
  }

  /** For every node of `f` in pre-order, the pre-order position of its parent
      (`p` for the nodes at the top of `f`, whose first node sits at `base`). */
  function ParentPositions(f: seq<FeatureNode>, base: int, p: int): seq<int>
    decreases f
  {
    if f == [] then []
    else match f[0]
      case Leaf(_) => [p] + ParentPositions(f[1..], base + 1, p)
      case Node(_, ks) =>
        [p] + ParentPositions(ks, base + 1, base)
            + ParentPositions(f[1..], base + 1 + |Preorder(ks)|, p)
  }

  /** No node of `f` carries an empty `children` array. */
  predicate NoEmptyChildren(f: seq<FeatureNode>)
    decreases f
  {
    f != [] ==>
      && (f[0].Node? ==> f[0].children != [] && NoEmptyChildren(f[0].children))
      && NoEmptyChildren(f[1..])
  }

  /** The texts of `lines`, in order. */
  function Texts(lines: seq<Line>): seq<string> {
    seq(|lines|, j requires 0 <= j < |lines| => lines[j].text)
  }

  // ---------------------------------------------------------------------
  // Which line is whose parent

  /** The last position before `i` whose line is indented less than `d`, or -1. */
  function Below(lines: seq<Line>, d: int, i: nat): (r: int)
    requires i <= |lines|
    ensures -1 <= r < i
    decreases i
  {
    if i == 0 then -1
    else if lines[i - 1].indent < d then i - 1
    else Below(lines, d, i - 1)
  }

  /** `Below` finds the nearest such position: it is indented less than `d`,
      and nothing after it, before `i`, is. */
  lemma {:induction false} BelowSpec(lines: seq<Line>, d: int, i: nat)
    requires i <= |lines|
    ensures Below(lines, d, i) >= 0 ==> lines[Below(lines, d, i)].indent < d
    ensures forall k :: Below(lines, d, i) < k < i ==> lines[k].indent >= d
    decreases i
  {
    if i > 0 && lines[i - 1].indent >= d {
      BelowSpec(lines, d, i - 1);
    }
  }

  /** The parent of line `j`: the nearest earlier line with a strictly smaller
      indent, or -1 (a root) when every earlier line is indented at least as
      deep. */
  function ParentOf(lines: seq<Line>, j: nat): int
    requires j < |lines|
  {
    Below(lines, lines[j].indent, j)
  }

  /** The parent of every line, in order. */
  function Parents(lines: seq<Line>): seq<int> {
    seq(|lines|, j requires 0 <= j < |lines| => ParentOf(lines, j))
  }

  // ---------------------------------------------------------------------
  // The reference outline: recursive descent over the lines

  /** The end of the block that `lines[0]` heads: the first later position
      indented no deeper than `lines[0]`, or `|lines|`. */
  function BlockEnd(lines: seq<Line>, k: nat): (e: nat)
    requires 1 <= k <= |lines|
    ensures k <= e <= |lines|
    decreases |lines| - k
  {
    if k == |lines| || lines[k].indent <= lines[0].indent then k
    else BlockEnd(lines, k + 1)
  }

  /** The block of `lines[0]` holds only deeper lines and stops at the first
      line that is not indented deeper (or at the end). */
  lemma {:induction false} BlockEndSpec(lines: seq<Line>, k: nat)
    requires 1 <= k <= |lines|
    requires forall i :: 1 <= i < k ==> lines[i].indent > lines[0].indent
    ensures forall i :: 1 <= i < BlockEnd(lines, k) ==> lines[i].indent > lines[0].indent
    ensures BlockEnd(lines, k) < |lines| ==> lines[BlockEnd(lines, k)].indent <= lines[0].indent
    decreases |lines| - k
  {
    if k < |lines| && lines[k].indent > lines[0].indent {
      BlockEndSpec(lines, k + 1);
    }
  }

  /** The outline `lines` stand for: the first line is a root; the lines it
      heads (all indented deeper, up to the first one that is not) form its
      children's outline; the rest is the outline of the remaining lines. */
  function Build(lines: seq<Line>): seq<Tree>
    decreases |lines|
  {
    if lines == [] then []
    else
      var e := BlockEnd(lines, 1);
      [Tree(lines[0], Build(lines[1..e]))] + Build(lines[e..])
  }

  /** Placing one more line as the normalizer's stack does: follow the last
      node of each level while it is indented less than `l`, and append `l`
      as a new last node where that stops. */
  function Insert(f: seq<Tree>, l: Line): seq<Tree>
    decreases f
  {
    if f == [] || f[|f| - 1].line.indent >= l.indent then f + [Tree(l, [])]
    else f[..|f| - 1] + [Tree(f[|f| - 1].line, Insert(f[|f| - 1].kids, l))]
  }

  // ---------------------------------------------------------------------
  // Lemmas

  lemma {:induction false} StripAppend(a: seq<Tree>, b: seq<Tree>)
    ensures Strip(a + b) == Strip(a) + Strip(b)
    decreases |a|
  {
    if a == [] {
      assert a + b == b;
    } else {
      assert (a + b)[0] == a[0];
      assert (a + b)[1..] == a[1..] + b;
      StripAppend(a[1..], b);
    }
  }

  lemma {:induction false} PreorderAppend(a: seq<FeatureNode>, b: seq<FeatureNode>)
    ensures Preorder(a + b) == Preorder(a) + Preorder(b)
    decreases |a|
  {
    if a == [] {
      assert a + b == b;
    } else {
      assert (a + b)[0] == a[0];
      assert (a + b)[1..] == a[1..] + b;
      PreorderAppend(a[1..], b);
    }
  }

  lemma {:induction false} ParentPositionsAppend(a: seq<FeatureNode>, b: seq<FeatureNode>, base: int, p: int)
    ensures ParentPositions(a + b, base, p)
         == ParentPositions(a, base, p) + ParentPositions(b, base + |Preorder(a)|, p)
    decreases |a|
  {
    if a == [] {
      assert a + b == b;
    } else {
      var off := base + 1 + |Preorder(Kids(a[0]))|;
      ParentPositionsAppend(a[1..], b, off, p);
      ParentPositionsAppendStep(a, b, base, p);
    }
  }

  /** The inductive step of `ParentPositionsAppend`. */
  lemma {:induction false} ParentPositionsAppendStep(a: seq<FeatureNode>, b: seq<FeatureNode>, base: int, p: int)
    requires a != []
    requires var off := base + 1 + |Preorder(Kids(a[0]))|;
             ParentPositions(a[1..] + b, off, p)
             == ParentPositions(a[1..], off, p) + ParentPositions(b, off + |Preorder(a[1..])|, p)
    ensures ParentPositions(a + b, base, p)
         == ParentPositions(a, base, p) + ParentPositions(b, base + |Preorder(a)|, p)
  {
    var n := a[0];
    var off := base + 1 + |Preorder(Kids(n))|;
    SnocLike(a, b);
    HeadParents(a + b, base, p);
    HeadParents(a, base, p);
    HeadPreorder(a);
    var x := [p] + ParentPositions(Kids(n), base + 1, base);
    AppendAssoc(x, ParentPositions(a[1..], off, p), ParentPositions(b, off + |Preorder(a[1..])|, p));
  }

  /** The head and tail of a concatenation whose first part is not empty. */
  lemma {:induction false} SnocLike(a: seq<FeatureNode>, b: seq<FeatureNode>)
    requires a != []
    ensures (a + b) != [] && (a + b)[0] == a[0] && (a + b)[1..] == a[1..] + b
  {
  }

  /** `ParentPositions` unfolded once. */
  lemma {:induction false} HeadParents(f: seq<FeatureNode>, base: int, p: int)
    requires f != []
    ensures ParentPositions(f, base, p)
         == [p] + ParentPositions(Kids(f[0]), base + 1, base) + ParentPositions(f[1..], base + 1 + |Preorder(Kids(f[0]))|, p)
  {
  }

  /** `Preorder` unfolded once. */
  lemma {:induction false} HeadPreorder(f: seq<FeatureNode>)
    requires f != []
    ensures Preorder(f) == [f[0].value] + Preorder(Kids(f[0])) + Preorder(f[1..])
  {
  }

  /** A stripped forest never carries an empty `children` array. */
  lemma {:induction false} StripNoEmptyChildren(f: seq<Tree>)
    ensures NoEmptyChildren(Strip(f))
    decreases f
  {
    if f != [] {
      StripNoEmptyChildren(f[0].kids);
      StripNoEmptyChildren(f[1..]);
    }
  }

  /** Preorder of the reference outline lists exactly the lines' texts, in
      document order: no line is lost, added or moved. */
  lemma {:induction false} BuildPreorder(lines: seq<Line>)
    ensures Preorder(Strip(Build(lines))) == Texts(lines)
    decreases |lines|
  {
    if lines != [] {
      var e := BlockEnd(lines, 1);
      var kids := Strip(Build(lines[1..e]));
      var rest := Strip(Build(lines[e..]));
      var n := MkNode(lines[0].text, kids);
      StripAppend([Tree(lines[0], Build(lines[1..e]))], Build(lines[e..]));
      PreorderAppend([n], rest);
      ReadOne(n, 0, 0);
      BuildPreorder(lines[1..e]);
      BuildPreorder(lines[e..]);
      TextsSplit(lines, e);
    }
  }

  /** Entry `j` of `Texts`. */
  lemma {:induction false} TextsAt(lines: seq<Line>, j: nat)
    requires j < |lines|
    ensures |Texts(lines)| == |lines| && Texts(lines)[j] == lines[j].text
  {
  }

  /** A forest read back has one feature node per tree at its top level. */
  lemma {:induction false} StripLength(f: seq<Tree>)
    ensures |Strip(f)| == |f|
    decreases |f|
  {
    if f != [] {
      StripLength(f[1..]);
    }
  }

  /** The texts of a line sequence cut into its first line, a middle part and
      the rest. */
  lemma {:induction false} TextsSplit(lines: seq<Line>, e: nat)
    requires 1 <= e <= |lines|
    ensures Texts(lines) == [lines[0].text] + Texts(lines[1..e]) + Texts(lines[e..])
  {
  }

  /** `Below` over a slice `lines[a..]` finds what `Below` over `lines` finds,
      shifted, when that lies inside the slice, and nothing otherwise. */
  lemma {:induction false} BelowSuffix(lines: seq<Line>, a: nat, d: int, i: nat)
    requires a + i <= |lines|
    ensures Below(lines[a..], d, i)
         == if Below(lines, d, a + i) >= a then Below(lines, d, a + i) - a else -1
    decreases i
  {
    if i > 0 {
      assert lines[a..][i - 1] == lines[a + i - 1];
      BelowSuffix(lines, a, d, i - 1);
    }
  }

  /** `Below` over a prefix finds what it finds over the whole. */
  lemma {:induction false} BelowPrefix(lines: seq<Line>, b: nat, d: int, i: nat)
    requires i <= b <= |lines|
    ensures Below(lines[..b], d, i) == Below(lines, d, i)
    decreases i
  {
    if i > 0 {
      assert lines[..b][i - 1] == lines[i - 1];
      BelowPrefix(lines, b, d, i - 1);
    }
  }

  /** Parents of the lines inside the block of `lines[0]`. */
  lemma {:induction false} ParentInBlock(lines: seq<Line>, e: nat, j: nat)
    requires 1 <= j < e <= |lines|
    requires forall i :: 1 <= i < e ==> lines[i].indent > lines[0].indent
    ensures ParentOf(lines, j)
         == if ParentOf(lines[1..e], j - 1) == -1 then 0 else ParentOf(lines[1..e], j - 1) + 1
  {
    BelowSpec(lines, lines[j].indent, j);
    var d := lines[j].indent;
    assert lines[1..e] == lines[1..][..e - 1];
    assert lines[1..e][j - 1] == lines[j];
    BelowPrefix(lines[1..], e - 1, d, j - 1);
    BelowSuffix(lines, 1, d, j - 1);
  }

  /** Parents of the lines after the block of `lines[0]`. */
  lemma {:induction false} ParentAfterBlock(lines: seq<Line>, e: nat, j: nat)
    requires 1 <= e <= j < |lines|
    requires forall i :: 1 <= i < e ==> lines[i].indent > lines[0].indent
    requires lines[e].indent <= lines[0].indent
    ensures ParentOf(lines, j)
         == if ParentOf(lines[e..], j - e) == -1 then -1 else ParentOf(lines[e..], j - e) + e
  {
    BelowSpec(lines, lines[j].indent, j);
    var d := lines[j].indent;
    assert lines[e..][j - e] == lines[j];
    BelowSuffix(lines, e, d, j - e);
    var r := Below(lines, d, j);
  }

  /** The parent positions the reference outline should show: line `j`'s
      parent line, placed at `base`, or `p` for a line with none. */
  function ShiftedParents(lines: seq<Line>, base: int, p: int): seq<int> {
    seq(|lines|, j requires 0 <= j < |lines| =>
          if ParentOf(lines, j) == -1 then p else base + ParentOf(lines, j))
  }

  /** Entry `j` of `ShiftedParents`. */
  lemma ShiftedParentsAt(lines: seq<Line>, base: int, p: int, j: nat)
    requires j < |lines|
    ensures |ShiftedParents(lines, base, p)| == |lines|
    ensures ShiftedParents(lines, base, p)[j] == if ParentOf(lines, j) == -1 then p else base + ParentOf(lines, j)
  {
  }

  /** Entry `j` of `Parents`. */
  lemma {:induction false} ParentsAt(lines: seq<Line>, j: nat)
    requires j < |lines|
    ensures |Parents(lines)| == |lines| && Parents(lines)[j] == ParentOf(lines, j)
  {
  }

  /** At the top of the whole outline, shifted parents are the parents. */
  lemma {:induction false} ShiftedParentsAtTop(lines: seq<Line>)
    ensures ShiftedParents(lines, 0, -1) == Parents(lines)
  {
    forall j | 0 <= j < |lines| ensures ShiftedParents(lines, 0, -1)[j] == Parents(lines)[j] {
      ShiftedParentsAt(lines, 0, -1, j);
      ParentsAt(lines, j);
    }
    if lines != [] {
      ShiftedParentsAt(lines, 0, -1, 0);
      ParentsAt(lines, 0);
    }
  }

  /** One node read back on its own. */
  lemma {:induction false} ReadOne(n: FeatureNode, base: int, p: int)
    ensures Preorder([n]) == [n.value] + Preorder(Kids(n))
    ensures ParentPositions([n], base, p) == [p] + ParentPositions(Kids(n), base + 1, base)
  {
    assert [n][1..] == [];
  }

  /** The reference outline attaches every line to its `ParentOf`: reading the
      parent positions of the returned forest in pre-order gives, for line
      `j`, the nearest earlier line indented strictly less (or none). */
  lemma {:induction false} BuildParents(lines: seq<Line>, base: int, p: int)
    ensures ParentPositions(Strip(Build(lines)), base, p) == ShiftedParents(lines, base, p)
    decreases |lines|
  {
    if lines != [] {
      var e := BlockEnd(lines, 1);
      BuildParents(lines[1..e], base + 1, base);
      BuildParents(lines[e..], base + e, p);
      BuildParentsStep(lines, e, base, p);
    }
  }

  /** The inductive step of `BuildParents`: the first line's block and the
      lines after it, each read back correctly, give the whole. */
  lemma {:induction false} BuildParentsStep(lines: seq<Line>, e: nat, base: int, p: int)
    requires lines != [] && e == BlockEnd(lines, 1)
    requires ParentPositions(Strip(Build(lines[1..e])), base + 1, base) == ShiftedParents(lines[1..e], base + 1, base)
    requires ParentPositions(Strip(Build(lines[e..])), base + e, p) == ShiftedParents(lines[e..], base + e, p)
    ensures ParentPositions(Strip(Build(lines)), base, p) == ShiftedParents(lines, base, p)
  {
    var kids := Strip(Build(lines[1..e]));
    HeadSplit(lines);
    BuildPreorder(lines[1..e]);
    NodeThenRest(lines[0].text, kids, Strip(Build(lines[e..])), base, p, e);
    SplitParents(lines, e, base, p);
  }

  /** The parent positions of a node followed by more roots. */
  lemma {:induction false} NodeThenRest(v: string, kids: seq<FeatureNode>, rest: seq<FeatureNode>,
                                        base: int, p: int, e: int)
    requires |Preorder(kids)| == e - 1
    ensures ParentPositions([MkNode(v, kids)] + rest, base, p)
         == [p] + ParentPositions(kids, base + 1, base) + ParentPositions(rest, base + e, p)
  {
    var n := MkNode(v, kids);
    ParentPositionsAppend([n], rest, base, p);
    NodeParents(v, kids, base, p);
  }

  /** The returned forest of a non-empty line sequence: the first line's node,
      holding the forest of its block, then the forest of the lines after it. */
  lemma {:induction false} HeadSplit(lines: seq<Line>)
    requires lines != []
    ensures Strip(Build(lines))
         == [MkNode(lines[0].text, Strip(Build(lines[1..BlockEnd(lines, 1)])))]
            + Strip(Build(lines[BlockEnd(lines, 1)..]))
  {
    var e := BlockEnd(lines, 1);
    StripAppend([Tree(lines[0], Build(lines[1..e]))], Build(lines[e..]));
  }

  /** One node's parent positions and size, in terms of its children. */
  lemma {:induction false} NodeParents(v: string, kids: seq<FeatureNode>, base: int, p: int)
    ensures ParentPositions([MkNode(v, kids)], base, p) == [p] + ParentPositions(kids, base + 1, base)
    ensures |Preorder([MkNode(v, kids)])| == 1 + |Preorder(kids)|
  {
    ReadOne(MkNode(v, kids), base, p);
  }

  /** The parents of a whole line sequence, pieced together from those of the
      first line's block and of the lines after it. */
  lemma {:induction false} SplitParents(lines: seq<Line>, e: nat, base: int, p: int)
    requires lines != [] && e == BlockEnd(lines, 1)
    ensures ShiftedParents(lines, base, p)
         == [p] + ShiftedParents(lines[1..e], base + 1, base) + ShiftedParents(lines[e..], base + e, p)
  {
    var got := [p] + ShiftedParents(lines[1..e], base + 1, base) + ShiftedParents(lines[e..], base + e, p);
    var want := ShiftedParents(lines, base, p);
    forall j | 0 <= j < |lines| ensures got[j] == want[j] {
      SplitParentsAt(lines, e, base, p, j);
    }
  }

  /** Entry `j` of `SplitParents`. */
  lemma {:induction false} SplitParentsAt(lines: seq<Line>, e: nat, base: int, p: int, j: nat)
    requires lines != [] && e == BlockEnd(lines, 1) && j < |lines|
    ensures |[p] + ShiftedParents(lines[1..e], base + 1, base) + ShiftedParents(lines[e..], base + e, p)| == |lines|
    ensures ([p] + ShiftedParents(lines[1..e], base + 1, base) + ShiftedParents(lines[e..], base + e, p))[j]
         == ShiftedParents(lines, base, p)[j]
  {
    BlockEndSpec(lines, 1);
    ShiftedParentsAt(lines, base, p, j);
    if j == 0 {
    } else if j < e {
      ParentInBlock(lines, e, j);
      ShiftedParentsAt(lines[1..e], base + 1, base, j - 1);
    } else {
      ParentAfterBlock(lines, e, j);
      ShiftedParentsAt(lines[e..], base + e, p, j - e);
    }
  }

  /** Appending to a forest whose last tree carries on past the split. */
  lemma {:induction false} InsertAppend(a: seq<Tree>, b: seq<Tree>, l: Line)
    requires b != []
    ensures Insert(a + b, l) == a + Insert(b, l)
  {
    var f := a + b;
    assert f[|f| - 1] == b[|b| - 1];
    assert f[..|f| - 1] == a + b[..|b| - 1];
  }

  /** `Build` unfolded once. */
  lemma {:induction false} BuildUnfold(lines: seq<Line>, e: nat)
    requires lines != [] && e == BlockEnd(lines, 1)
    ensures Build(lines) == [Tree(lines[0], Build(lines[1..e]))] + Build(lines[e..])
  {
  }

  /** Where the first block ends once a line is appended: where it did, if it
      ended before; otherwise after the new line if that is deeper than the
      first line, and before it if not. */
  lemma {:induction false} BlockEndSnoc(lines: seq<Line>, l: Line, k: nat)
    requires 1 <= k <= |lines|
    ensures BlockEnd(lines + [l], k)
         == if BlockEnd(lines, k) < |lines| || l.indent <= lines[0].indent then BlockEnd(lines, k)
            else |lines| + 1
    decreases |lines| - k
  {
    var q := lines + [l];
    SnocIndex(lines, l, 0);
    if k < |lines| {
      SnocIndex(lines, l, k);
      if lines[k].indent > lines[0].indent {
        BlockEndSnoc(lines, l, k + 1);
      }
    } else {
      assert q[k] == l;
      if l.indent > lines[0].indent {
        assert BlockEnd(q, k + 1) == k + 1;
      }
    }
  }

  /** The reference outline of one more line is the old one with that line
      placed by `Insert`: the stack discipline and the recursive descent
      agree on every prefix. */
  lemma {:induction false} BuildSnoc(lines: seq<Line>, l: Line)
    ensures Build(lines + [l]) == Insert(Build(lines), l)
    decreases |lines|
  {
    if lines == [] {
      BuildSnocFirst(l);
    } else {
      var e := BlockEnd(lines, 1);
      if e < |lines| {
        BuildSnoc(lines[e..], l);
        BuildSnocAfterBlock(lines, e, l);
      } else if l.indent > lines[0].indent {
        BuildSnoc(lines[1..], l);
        BuildSnocInBlock(lines, l);
      } else {
        BuildSnocNewBlock(lines, l);
      }
    }
  }

  /** `BuildSnoc` for the first line: it is the only root. */
  lemma {:induction false} BuildSnocFirst(l: Line)
    ensures Build([l]) == [Tree(l, [])]
  {
    BuildUnfold([l], 1);
    assert [l][1..1] == [] && [l][1..] == [];
  }

  /** `BuildSnoc` when the line goes after a finished first block. */
  lemma {:induction false} BuildSnocAfterBlock(lines: seq<Line>, e: nat, l: Line)
    requires lines != [] && e == BlockEnd(lines, 1) && e < |lines|
    requires Build(lines[e..] + [l]) == Insert(Build(lines[e..]), l)
    ensures Build(lines + [l]) == Insert(Build(lines), l)
  {
    var q := lines + [l];
    BlockEndSnoc(lines, l, 1);
    SnocIndex(lines, l, 0);
    SnocSlice(lines, l, 1, e);
    SnocSuffix(lines, l, e);
    BuildUnfold(lines, e);
    BuildUnfold(q, e);
    InsertAppend([Tree(lines[0], Build(lines[1..e]))], Build(lines[e..]), l);
  }

  /** `BuildSnoc` when every line so far, and the new one, sit in the block
      of the first line. */
  lemma {:induction false} BuildSnocInBlock(lines: seq<Line>, l: Line)
    requires lines != [] && BlockEnd(lines, 1) == |lines| && l.indent > lines[0].indent
    requires Build(lines[1..] + [l]) == Insert(Build(lines[1..]), l)
    ensures Build(lines + [l]) == Insert(Build(lines), l)
  {
    var q := lines + [l];
    var n := |lines|;
    BlockEndSnoc(lines, l, 1);
    SnocIndex(lines, l, 0);
    SnocSuffix(lines, l, 1);
    BuildUnfold(lines, n);
    BuildUnfold(q, n + 1);
    assert lines[1..n] == lines[1..] && q[1..n + 1] == q[1..];
    assert lines[n..] == [] && q[n + 1..] == [];
    BuildSingle(lines[0], Build(lines[1..]), l);
  }

  /** `Insert` into a single tree indented less than the line goes into it. */
  lemma {:induction false} BuildSingle(root: Line, kids: seq<Tree>, l: Line)
    requires root.indent < l.indent
    ensures Insert([Tree(root, kids)] + [], l) == [Tree(root, Insert(kids, l))]
  {
    assert [Tree(root, kids)] + [] == [Tree(root, kids)];
    assert [Tree(root, kids)][..0] == [];
  }

  /** `BuildSnoc` when the new line is indented no deeper than the first
      line, whose block held every line so far. */
  lemma {:induction false} BuildSnocNewBlock(lines: seq<Line>, l: Line)
    requires lines != [] && BlockEnd(lines, 1) == |lines| && l.indent <= lines[0].indent
    ensures Build(lines + [l]) == Insert(Build(lines), l)
  {
    var q := lines + [l];
    var n := |lines|;
    BlockEndSnoc(lines, l, 1);
    SnocIndex(lines, l, 0);
    SnocSlice(lines, l, 1, n);
    SnocSuffix(lines, l, n);
    BuildUnfold(lines, n);
    BuildUnfold(q, n);
    assert lines[n..] == [] && lines[n..] + [l] == [l];
    BuildSnocFirst(l);
    assert Build([]) == [];
  }

  /** The last root of the reference outline is one of the lines and is
      indented no deeper than any line. */
  lemma {:induction false} LastRootIsShallowest(lines: seq<Line>)
    requires lines != []
    ensures Build(lines) != []
    ensures Build(lines)[|Build(lines)| - 1].line in lines
    ensures forall i :: 0 <= i < |lines| ==>
              Build(lines)[|Build(lines)| - 1].line.indent <= lines[i].indent
    decreases |lines|
  {
    var e := BlockEnd(lines, 1);
    if e < |lines| {
      LastRootIsShallowest(lines[e..]);
    }
    LastRootStep(lines, e);
  }

  /** `LastRootIsShallowest` for `lines`, from the case for the lines after
      the first block. */
  lemma {:induction false} LastRootStep(lines: seq<Line>, e: nat)
    requires lines != [] && e == BlockEnd(lines, 1)
    requires e < |lines| ==>
               var f := Build(lines[e..]);
               f != [] && f[|f| - 1].line in lines[e..] &&
               forall i :: 0 <= i < |lines| - e ==> f[|f| - 1].line.indent <= lines[e..][i].indent
    ensures Build(lines) != []
    ensures Build(lines)[|Build(lines)| - 1].line in lines
    ensures forall i :: 0 <= i < |lines| ==>
              Build(lines)[|Build(lines)| - 1].line.indent <= lines[i].indent
  {
    BlockEndSpec(lines, 1);
    BuildUnfold(lines, e);
    var f := Build(lines);
    if e < |lines| {
      var rest := Build(lines[e..]);
      var last := rest[|rest| - 1];
      assert f[|f| - 1] == last;
      forall i | 0 <= i < |lines| ensures last.line.indent <= lines[i].indent {
        if i >= e {
          assert lines[e..][i - e] == lines[i];
        } else {
          assert lines[e..][0] == lines[e];
        }
      }
    } else {
      assert lines[e..] == [];
      assert f[|f| - 1].line == lines[0];
    }
  }

  /** A new line becomes a new root exactly when no earlier line is indented
      less than it: a line indented as shallow as everything so far starts a
      new top-level entry, and any other line nests under some earlier one. */
  lemma {:induction false} NewRootIff(lines: seq<Line>, l: Line)
    ensures Build(lines + [l]) == Build(lines) + [Tree(l, [])]
        <==> forall i :: 0 <= i < |lines| ==> lines[i].indent >= l.indent
  {
    BuildSnoc(lines, l);
    if lines != [] {
      LastRootIsShallowest(lines);
      var f := Build(lines);
      var last := f[|f| - 1];
      var i :| 0 <= i < |lines| && lines[i] == last.line;
      if last.line.indent < l.indent {
        assert |Insert(f, l)| == |f|;
      }
    }
  }

  /** `NewRootIff` read back without indents: the returned forest gains a
      new last leaf exactly when the line is indented no deeper than every
      earlier line. */
  lemma {:induction false} NewRootIffRead(lines: seq<Line>, l: Line)
    ensures (Strip(Build(lines + [l])) == Strip(Build(lines)) + [Leaf(l.text)])
        <==> forall i :: 0 <= i < |lines| ==> lines[i].indent >= l.indent
  {
    NewRootIff(lines, l);
    if forall i :: 0 <= i < |lines| ==> lines[i].indent >= l.indent {
      NewLeafRead(Build(lines), l);
    } else {
      BuildSnoc(lines, l);
      InsertKeepsRoots(Build(lines), l);
      StripLength(Build(lines));
      StripLength(Build(lines + [l]));
    }
  }

  /** A new root without children reads back as a new last leaf. */
  lemma {:induction false} NewLeafRead(f: seq<Tree>, l: Line)
    ensures Strip(f + [Tree(l, [])]) == Strip(f) + [Leaf(l.text)]
  {
    StripAppend(f, [Tree(l, [])]);
    assert [Tree(l, [])][1..] == [];
  }

  /** `Insert` below the last root leaves the number of roots alone, and
      otherwise adds one. */
  lemma {:induction false} InsertKeepsRoots(f: seq<Tree>, l: Line)
    ensures |Insert(f, l)| == if f == [] || f[|f| - 1].line.indent >= l.indent then |f| + 1 else |f|
  {
  }

  /** A line indented exactly as deep as the line before it is that line's
      sibling (same parent), never its child. */
  lemma {:induction false} EqualIndentIsSibling(lines: seq<Line>, j: nat)
    requires 1 <= j < |lines|
    requires lines[j].indent == lines[j - 1].indent
    ensures ParentOf(lines, j) == ParentOf(lines, j - 1)
  {
  }

  /** Every line's parent is indented strictly less, and every line indented
      less lies before the parent or the parent is the nearest such line. */
  lemma {:induction false} ParentIsNearestShallower(lines: seq<Line>, j: nat)
    requires j < |lines|
    ensures ParentOf(lines, j) == -1 <==> forall i :: 0 <= i < j ==> lines[i].indent >= lines[j].indent
    ensures ParentOf(lines, j) >= 0 ==>
              && lines[ParentOf(lines, j)].indent < lines[j].indent
              && forall i :: ParentOf(lines, j) < i < j ==> lines[i].indent >= lines[j].indent
  {
    BelowSpec(lines, lines[j].indent, j);
  }
}
