/**
  Worked outlines: small deltas and the forest the normalizer returns for
  them, derived from the general lemmas rather than by evaluation.
*/
module Scenarios {
  import opened Wrappers
  import opened JsString
  import opened Outline
  import opened DeltaLines
  import opened Normalize
  import opened Seqs

  /** A plain insert without attributes. */
  function Text(s: string): DeltaOp { DeltaOp(s, None) }

  /** A bullet-list break at indent `k`. */
  function Break(k: int): DeltaOp { DeltaOp("\n", Some(Attributes(Some(Bullet), Some(k)))) }

  /** One line typed as the single insert `t` and ended by the break `b`,
      after a line break or at the start: it ends one line, holding the
      insert's text and placed by the break's indent when that is truthy and
      by the insert's own otherwise. */
  lemma {:induction false} OneLine(ops: seq<DeltaOp>, t: DeltaOp, b: DeltaOp)
    requires Pending(ops) == [] && !IsTerminator(t) && WellFormedText(t.insert) && IsTerminator(b)
    ensures SplitLines(ops + [t, b]) == SplitLines(ops) + [Line(t.insert, LineIndent(IndentOrZero(t), b))]
    ensures Pending(ops + [t, b]) == []
  {
    SplitSnoc(ops, t);
    BreakStep(ops + [t], t, b);
    AppendPair(ops, t, b);
  }

  /** The break of `OneLine` ends the line its insert holds. */
  lemma {:induction false} BreakStep(q: seq<DeltaOp>, t: DeltaOp, b: DeltaOp)
    requires Pending(q) == [t] && WellFormedText(t.insert) && IsTerminator(b)
    ensures SplitLines(q + [b]) == SplitLines(q) + [Line(t.insert, LineIndent(IndentOrZero(t), b))]
    ensures Pending(q + [b]) == []
  {
    var s := t.insert;
    StripNewlinesSpec(s);
    assert [t][..0] == [];
    assert Concat([t]) == s;
    assert TrimStart(s) == s;
    assert TrimEnd(s) == s;
    assert !IsWhiteSpace(s[0]);
    LineEnded(q, b);
    SplitSnoc(q, b);
  }

  /** Plain, well-formed text `t` ended by the line break `b`. */
  predicate Typed(t: DeltaOp, b: DeltaOp) {
    !IsTerminator(t) && WellFormedText(t.insert) && IsTerminator(b)
  }

  /** The line `Typed` text ends. */
  function LineFor(t: DeltaOp, b: DeltaOp): Line {
    Line(t.insert, LineIndent(IndentOrZero(t), b))
  }

  lemma {:induction false} OneTyped(t1: DeltaOp, b1: DeltaOp)
    requires Typed(t1, b1)
    ensures SplitLines([t1, b1]) == [LineFor(t1, b1)]
    ensures Pending([t1, b1]) == []
  {
    UnfoldPending([]);
    SplitNone([]);
    OneLine([], t1, b1);
    Displays([], t1, b1);
    Grown([], LineFor(t1, b1));
  }

  lemma {:induction false} TwoTyped(t1: DeltaOp, b1: DeltaOp, t2: DeltaOp, b2: DeltaOp)
    requires Typed(t1, b1) && Typed(t2, b2)
    ensures SplitLines([t1, b1, t2, b2]) == [LineFor(t1, b1), LineFor(t2, b2)]
    ensures Pending([t1, b1, t2, b2]) == []
  {
    OneTyped(t1, b1);
    OneLine([t1, b1], t2, b2);
    Displays([t1, b1], t2, b2);
    Grown([LineFor(t1, b1)], LineFor(t2, b2));
  }

  lemma {:induction false} ThreeTyped(t1: DeltaOp, b1: DeltaOp, t2: DeltaOp, b2: DeltaOp, t3: DeltaOp, b3: DeltaOp)
    requires Typed(t1, b1) && Typed(t2, b2) && Typed(t3, b3)
    ensures SplitLines([t1, b1, t2, b2, t3, b3]) == [LineFor(t1, b1), LineFor(t2, b2), LineFor(t3, b3)]
  {
    TwoTyped(t1, b1, t2, b2);
    OneLine([t1, b1, t2, b2], t3, b3);
    Displays([t1, b1, t2, b2], t3, b3);
    Grown([LineFor(t1, b1), LineFor(t2, b2)], LineFor(t3, b3));
  }

  // ---------------------------------------------------------------------
  // Placing a handful of lines

  lemma {:induction false} BuildOne(a: Line)
    ensures Build([a]) == [Tree(a, [])]
  {
    BuildSnoc([], a);
    Grown([], a);
  }

  /** A deeper second line becomes the first one's child. */
  lemma {:induction false} BuildChild(a: Line, c: Line)
    requires a.indent < c.indent
    ensures Build([a, c]) == [Tree(a, [Tree(c, [])])]
  {
    BuildOne(a);
    BuildSnoc([a], c);
    Grown([a], c);
    var f := [Tree(a, [])];
    assert f[..0] == [] && f[0] == Tree(a, []);
    assert Insert([], c) == [Tree(c, [])];
  }

  /** A second line no deeper than the first becomes a second root. */
  lemma {:induction false} BuildSibling(a: Line, b: Line)
    requires a.indent >= b.indent
    ensures Build([a, b]) == [Tree(a, []), Tree(b, [])]
  {
    BuildOne(a);
    BuildSnoc([a], b);
    Grown([a], b);
  }

  /** A child, then a line back at the first one's level. */
  lemma {:induction false} NestThenDedent(a: Line, c: Line, b: Line)
    requires a.indent < c.indent && b.indent <= a.indent
    ensures Strip(Build([a, c, b])) == [Node(a.text, [Leaf(c.text)]), Leaf(b.text)]
  {
    BuildChild(a, c);
    BuildSnoc([a, c], b);
    Grown([a, c], b);
    var f := [Tree(a, [Tree(c, [])]), Tree(b, [])];
    assert Build([a, c, b]) == f;
    assert f[1..] == [Tree(b, [])];
    assert [Tree(b, [])][1..] == [];
    assert [Tree(c, [])][1..] == [];
    assert Strip([Tree(c, [])]) == [Leaf(c.text)];
    assert Strip([Tree(b, [])]) == [Leaf(b.text)];
    assert Strip(f) == [MkNode(a.text, Strip([Tree(c, [])]))] + Strip(f[1..]);
  }

  /** Two lines at the same level are two roots. */
  lemma {:induction false} TwoRoots(a: Line, b: Line)
    requires b.indent <= a.indent
    ensures Strip(Build([a, b])) == [Leaf(a.text), Leaf(b.text)]
  {
    BuildSibling(a, b);
    var f := [Tree(a, []), Tree(b, [])];
    assert f[1..] == [Tree(b, [])];
    assert [Tree(b, [])][1..] == [];
    assert Strip([Tree(b, [])]) == [Leaf(b.text)];
  }

  /** A deeper second line is the only child of the first. */
  lemma {:induction false} OneChild(a: Line, c: Line)
    requires a.indent < c.indent
    ensures Strip(Build([a, c])) == [Node(a.text, [Leaf(c.text)])]
  {
    BuildChild(a, c);
    var f := [Tree(a, [Tree(c, [])])];
    assert f[1..] == [];
    assert [Tree(c, [])][1..] == [];
    assert Strip([Tree(c, [])]) == [Leaf(c.text)];
  }

  /** Two lines at the same depth below a shallower one are both its children. */
  lemma {:induction false} TwoChildren(a: Line, c: Line, d: Line)
    requires a.indent < c.indent && a.indent < d.indent <= c.indent
    ensures Strip(Build([a, c, d])) == [Node(a.text, [Leaf(c.text), Leaf(d.text)])]
  {
    BuildChild(a, c);
    BuildSnoc([a, c], d);
    Grown([a, c], d);
    var g := [Tree(a, [Tree(c, [])])];
    assert g[..0] == [] && g[0] == Tree(a, [Tree(c, [])]);
    assert Insert([Tree(c, [])], d) == [Tree(c, []), Tree(d, [])];
    var kids := [Tree(c, []), Tree(d, [])];
    var f := [Tree(a, kids)];
    assert Build([a, c, d]) == f;
    assert f[1..] == [];
    assert kids[1..] == [Tree(d, [])];
    assert [Tree(d, [])][1..] == [];
    assert Strip([Tree(d, [])]) == [Leaf(d.text)];
    assert Strip(kids) == [Leaf(c.text), Leaf(d.text)];
  }

  // ---------------------------------------------------------------------
  // Worked deltas

  /** A dedent pops back to the root level: a line at indent 0 after one at
      indent 1 becomes a second root, not a child of the first. */
  lemma {:induction false} DedentBackToRoot(a: string, c: string, b: string)
    requires WellFormedText(a) && WellFormedText(c) && WellFormedText(b)
    ensures Features([Text(a), Break(0), Text(c), Break(1), Text(b), Break(0)])
         == [Node(a, [Leaf(c)]), Leaf(b)]
  {
    ThreeTyped(Text(a), Break(0), Text(c), Break(1), Text(b), Break(0));
    var la, lc, lb := Line(a, 0), Line(c, 1), Line(b, 0);
    assert LineFor(Text(a), Break(0)) == la;
    assert LineFor(Text(c), Break(1)) == lc;
    assert LineFor(Text(b), Break(0)) == lb;
    NestThenDedent(la, lc, lb);
  }

  /** Two lines at indent 0 are two roots, in order. */
  lemma {:induction false} FlatList(a: string, b: string)
    requires WellFormedText(a) && WellFormedText(b)
    ensures Features([Text(a), Break(0), Text(b), Break(0)]) == [Leaf(a), Leaf(b)]
  {
    TwoTyped(Text(a), Break(0), Text(b), Break(0));
    assert LineFor(Text(a), Break(0)) == Line(a, 0);
    assert LineFor(Text(b), Break(0)) == Line(b, 0);
    TwoRoots(Line(a, 0), Line(b, 0));
  }

  /** A line at indent 1 after one at indent 0 is its child. */
  lemma {:induction false} OneLevelNesting(a: string, c: string)
    requires WellFormedText(a) && WellFormedText(c)
    ensures Features([Text(a), Break(0), Text(c), Break(1)]) == [Node(a, [Leaf(c)])]
  {
    TwoTyped(Text(a), Break(0), Text(c), Break(1));
    assert LineFor(Text(a), Break(0)) == Line(a, 0);
    assert LineFor(Text(c), Break(1)) == Line(c, 1);
    OneChild(Line(a, 0), Line(c, 1));
  }

  /** Equal indents are siblings: two lines at indent 1 under one at indent
      0 are both its children, the second not nested in the first. */
  lemma {:induction false} EqualIndentTie(a: string, c: string, d: string)
    requires WellFormedText(a) && WellFormedText(c) && WellFormedText(d)
    ensures Features([Text(a), Break(0), Text(c), Break(1), Text(d), Break(1)])
         == [Node(a, [Leaf(c), Leaf(d)])]
  {
    ThreeTyped(Text(a), Break(0), Text(c), Break(1), Text(d), Break(1));
    assert LineFor(Text(a), Break(0)) == Line(a, 0);
    assert LineFor(Text(c), Break(1)) == Line(c, 1);
    assert LineFor(Text(d), Break(1)) == Line(d, 1);
    TwoChildren(Line(a, 0), Line(c, 1), Line(d, 1));
  }

  /** A line of white space only yields nothing. */
  lemma {:induction false} BlankLineSkipped(w: string)
    requires AllWhiteSpace(w) && '\n' !in w
    ensures Features([Text(w), Break(0)]) == []
  {
    var t := Text(w);
    UnfoldPending([]);
    SplitNone([]);
    SplitSnoc([], t);
    Grown([], t);
    StripNewlinesSpec(w);
    assert [t][..0] == [];
    assert Concat([t]) == w;
    BlankLineDropped([t], Break(0));
    Grown([t], Break(0));
  }

  /** A break without an indent of its own places its line by the indent of
      the text before it: here the insert says 1, the break says nothing,
      and the line nests. */
  lemma {:induction false} PendingIndentApplies(a: string, c: string)
    requires WellFormedText(a) && WellFormedText(c)
    ensures Features([Text(a), Break(0),
                      DeltaOp(c, Some(Attributes(None, Some(1)))),
                      DeltaOp("\n", Some(Attributes(Some(Bullet), None)))])
         == [Node(a, [Leaf(c)])]
  {
    var t := DeltaOp(c, Some(Attributes(None, Some(1))));
    var b := DeltaOp("\n", Some(Attributes(Some(Bullet), None)));
    TwoTyped(Text(a), Break(0), t, b);
    assert LineFor(Text(a), Break(0)) == Line(a, 0);
    assert LineFor(t, b) == Line(c, 1);
    OneChild(Line(a, 0), Line(c, 1));
  }

  /** A line typed as two inserts is one line holding both texts. */
  lemma {:induction false} LineAcrossInserts(x: string, y: string)
    requires '\n' !in x && '\n' !in y && WellFormedText(x + y)
    ensures Features([Text(x), Text(y), Break(0)]) == [Leaf(x + y)]
  {
    var tx, ty := Text(x), Text(y);
    TwoInserts(x, y);
    assert TrimStart(x + y) == x + y;
    assert TrimEnd(x + y) == x + y;
    assert !IsWhiteSpace((x + y)[0]);
    LineEnded([tx, ty], Break(0));
    Grown([tx, ty], Break(0));
    Grown([], Line(x + y, 0));
    assert SplitLines([tx, ty, Break(0)]) == [Line(x + y, 0)];
    BuildOne(Line(x + y, 0));
    assert [Tree(Line(x + y, 0), [])][1..] == [];
    assert Strip([Tree(Line(x + y, 0), [])]) == [Leaf(x + y)];
  }

  /** Two inserts without a break stay pending, their texts joined. */
  lemma {:induction false} TwoInserts(x: string, y: string)
    requires '\n' !in x && '\n' !in y
    ensures SplitLines([Text(x), Text(y)]) == []
    ensures Pending([Text(x), Text(y)]) == [Text(x), Text(y)]
    ensures Concat([Text(x), Text(y)]) == x + y
  {
    var tx, ty := Text(x), Text(y);
    UnfoldPending([]);
    SplitNone([]);
    SplitSnoc([], tx);
    Grown([], tx);
    SplitSnoc([tx], ty);
    Grown([tx], ty);
    StripNewlinesSpec(x);
    StripNewlinesSpec(y);
    assert [tx][..0] == [];
    assert Concat([tx]) == x;
    assert [tx, ty][..1] == [tx];
  }
}
