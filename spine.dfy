/**
  The normalizer's stack read as the right spine of the outline built so far.

  The source links a new node into its parent (or into the list of roots)
  as soon as the node is pushed, and goes on appending children to it
  through the stack afterwards. Here a stack entry owns the children it has
  been given so far, and is linked into the entry below it (or into the
  roots) when it is popped; the tree that results is the same. `Represents`
  says how the stack and the finished roots together stand for an outline,
  and the lemmas say that a pop and a push keep it.
*/
module Spine {
  import opened Outline

  /** A stack entry `{ node, indent }`: the node's value and indent, and the
      children it has been given so far. */
  datatype Frame = Frame(value: string, indent: int, kids: seq<FeatureNode>)

  // ---------------------------------------------------------------------
  // The stack as the right spine of the outline

  /** The forest `k` levels down the right spine of `f`: `f` itself, its
      last tree's children, their last tree's children, ... */
  function LevelOf(f: seq<Tree>, k: nat): seq<Tree>
    decreases k
  {
    if k == 0 || f == [] then (if k == 0 then f else [])
    else LevelOf(f[|f| - 1].kids, k - 1)
  }

  /** `s` is the right spine from `t` down: `s[0]` is `t`, every further
      entry is the last child of the one before, and each entry holds, as
      finished nodes, all of its tree's children but the one the next entry
      stands for (all of them, for the top entry). */
  ghost predicate SpineOf(s: seq<Frame>, t: Tree)
    requires s != []
    decreases |s|
  {
    && s[0].value == t.line.text
    && s[0].indent == t.line.indent
    && if |s| == 1 then s[0].kids == Strip(t.kids)
       else
         && t.kids != []
         && s[0].kids == Strip(t.kids[..|t.kids| - 1])
         && SpineOf(s[1..], t.kids[|t.kids| - 1])
  }

  /** `features` and `stack` together stand for the outline `g`: with an
      empty stack `features` is all of it; otherwise `features` holds every
      root but the last, and the stack is the spine from the last root. */
  ghost predicate Represents(features: seq<FeatureNode>, stack: seq<Frame>, g: seq<Tree>) {
    var holds :=
      if stack == [] then features == Strip(g)
      else g != [] && features == Strip(g[..|g| - 1]) && SpineOf(stack, g[|g| - 1]);
    holds
  }

  /** Stack indents strictly increase from bottom to top. */
  predicate Increasing(stack: seq<Frame>) {
    forall i, j :: 0 <= i < j < |stack| ==> stack[i].indent < stack[j].indent
  }

  /** What holds between lines: the stack and the roots stand for `g`, the
      top entry has no children yet, and the stack indents increase. */
  ghost predicate Between(features: seq<FeatureNode>, stack: seq<Frame>, g: seq<Tree>) {
    var holds := Represents(features, stack, g) && LevelOf(g, |stack|) == [] && Increasing(stack);
    holds
  }

  /** `stack.pop()`: the top entry, now finished, becomes the last child of
      the entry below it, or the last root when it was the only one. Every
      other entry, and every indent, stays as it was. */
  function PopFrame(features: seq<FeatureNode>, stack: seq<Frame>): (r: (seq<FeatureNode>, seq<Frame>))
    requires stack != []
    ensures |r.1| == |stack| - 1
    ensures forall i :: 0 <= i < |r.1| ==> r.1[i].value == stack[i].value && r.1[i].indent == stack[i].indent
    ensures forall i :: 0 <= i < |r.1| - 1 ==> r.1[i] == stack[i]
    ensures |stack| > 1 ==> r.0 == features
  {
    var top := stack[|stack| - 1];
    var node := MkNode(top.value, top.kids);
    if |stack| == 1 then (features + [node], [])
    else
      var below := stack[|stack| - 2];
      (features, stack[..|stack| - 2] + [below.(kids := below.kids + [node])])
  }

  /** A pop keeps the indents increasing. */
  lemma {:induction false} IncreasingPop(features: seq<FeatureNode>, stack: seq<Frame>)
    requires stack != [] && Increasing(stack)
    ensures Increasing(PopFrame(features, stack).1)
  {
  }

  /** With increasing indents, a top entry below `d` puts every entry below `d`. */
  lemma {:induction false} IncreasingBelow(stack: seq<Frame>, d: int)
    requires Increasing(stack) && (stack == [] || stack[|stack| - 1].indent < d)
    ensures forall i :: 0 <= i < |stack| ==> stack[i].indent < d
  {
  }

  /** Pushing an entry deeper than all others keeps the indents increasing. */
  lemma {:induction false} IncreasingPush(stack: seq<Frame>, f: Frame)
    requires Increasing(stack) && forall i :: 0 <= i < |stack| ==> stack[i].indent < f.indent
    ensures Increasing(stack + [f])
  {
  }

  /** One tree read back as a single feature node. */
  lemma {:induction false} StripOne(t: Tree)
    ensures Strip([t]) == [MkNode(t.line.text, Strip(t.kids))]
  {
    assert [t][1..] == [];
  }

  /** Folding the top entry into the one below keeps the spine, and the
      level the popped entry came from now ends with that entry's tree. */
  lemma {:induction false} SpineFold(s: seq<Frame>, t: Tree)
    requires |s| >= 2 && SpineOf(s, t)
    ensures SpineOf(PopFrame([], s).1, t)
    ensures LevelOf(t.kids, |s| - 2) != []
    ensures LevelOf(t.kids, |s| - 2)[|LevelOf(t.kids, |s| - 2)| - 1].line.indent == s[|s| - 1].indent
    decreases |s|
  {
    if |s| == 2 {
      SpineFoldBase(s, t);
    } else {
      SpineTail(s, t);
      SpineFold(s[1..], t.kids[|t.kids| - 1]);
      SpineFoldLift(s, t);
    }
  }

  /** `SpineFold` for a two-entry spine: the top entry becomes the last
      child of the bottom one. */
  lemma {:induction false} SpineFoldBase(s: seq<Frame>, t: Tree)
    requires |s| == 2 && SpineOf(s, t)
    ensures SpineOf(PopFrame([], s).1, t)
    ensures LevelOf(t.kids, 0) != []
    ensures LevelOf(t.kids, 0)[|LevelOf(t.kids, 0)| - 1].line.indent == s[1].indent
  {
    var m := |t.kids|;
    var u := t.kids[m - 1];
    SpineTail(s, t);
    assert s[1..] == [s[1]];
    StripOne(u);
    assert t.kids == t.kids[..m - 1] + [u];
    StripAppend(t.kids[..m - 1], [u]);
    assert PopFrame([], s).1 == [s[0].(kids := s[0].kids + [MkNode(s[1].value, s[1].kids)])];
  }

  /** `SpineFold` one level up: a fold below the bottom entry's last child is
      a fold below the bottom entry. */
  lemma {:induction false} SpineFoldLift(s: seq<Frame>, t: Tree)
    requires |s| >= 3 && SpineOf(s, t)
    requires var u := t.kids[|t.kids| - 1];
             && SpineOf(PopFrame([], s[1..]).1, u)
             && LevelOf(u.kids, |s| - 3) != []
             && LevelOf(u.kids, |s| - 3)[|LevelOf(u.kids, |s| - 3)| - 1].line.indent == s[|s| - 1].indent
    ensures SpineOf(PopFrame([], s).1, t)
    ensures LevelOf(t.kids, |s| - 2) != []
    ensures LevelOf(t.kids, |s| - 2)[|LevelOf(t.kids, |s| - 2)| - 1].line.indent == s[|s| - 1].indent
  {
    PopTail(s);
    SpineTail(s, t);
    SpineCons(PopFrame([], s).1, t);
    LevelDown(t.kids, |s| - 2);
  }

  /** A pop leaves the bottom entry alone when there are three or more. */
  lemma {:induction false} PopTail(s: seq<Frame>)
    requires |s| >= 3
    ensures |PopFrame([], s).1| >= 2
    ensures PopFrame([], s).1[0] == s[0]
    ensures PopFrame([], s).1[1..] == PopFrame([], s[1..]).1
  {
    var n := |s|;
    var node := MkNode(s[n - 1].value, s[n - 1].kids);
    assert s[1..][|s[1..]| - 1] == s[n - 1] && s[1..][|s[1..]| - 2] == s[n - 2];
    assert (s[..n - 2] + [s[n - 2].(kids := s[n - 2].kids + [node])])[1..]
        == s[1..][..n - 3] + [s[n - 2].(kids := s[n - 2].kids + [node])];
  }

  /** The unfolding of `SpineOf` for a spine of two entries or more, read
      the other way. */
  lemma {:induction false} SpineTail(s: seq<Frame>, t: Tree)
    requires |s| >= 2 && SpineOf(s, t)
    ensures s[0].value == t.line.text && s[0].indent == t.line.indent
    ensures t.kids != [] && s[0].kids == Strip(t.kids[..|t.kids| - 1])
    ensures SpineOf(s[1..], t.kids[|t.kids| - 1])
    ensures s[1].value == t.kids[|t.kids| - 1].line.text && s[1].indent == t.kids[|t.kids| - 1].line.indent
  {
    assert s[1..][0] == s[1];
  }

  /** When `l` can be pushed onto the spine `s` from `t`: every entry is
      indented less than `l`, and the top entry's children are empty or end
      with one indented at least as deep as `l`. */
  ghost predicate PushReady(s: seq<Frame>, t: Tree, l: Line) {
    var holds :=
      && s != [] && SpineOf(s, t)
      && (forall i :: 0 <= i < |s| ==> s[i].indent < l.indent)
      && var lv := LevelOf(t.kids, |s| - 1); lv == [] || lv[|lv| - 1].line.indent >= l.indent;
    holds
  }

  /** After the push: the spine with `l` on top stands for `t` with `l`
      inserted, and `l` has no children yet. */
  ghost predicate Pushed(s: seq<Frame>, t: Tree, l: Line)
    requires s != []
  {
    var holds :=
      && SpineOf(s + [Frame(l.text, l.indent, [])], Tree(t.line, Insert(t.kids, l)))
      && LevelOf(Insert(t.kids, l), |s|) == [];
    holds
  }

  /** Pushing a line under the spine: `Insert` puts the line exactly where
      the new top entry says. */
  lemma {:induction false} SpinePush(s: seq<Frame>, t: Tree, l: Line)
    requires PushReady(s, t, l)
    ensures s != [] && Pushed(s, t, l)
    decreases |s|
  {
    if |s| == 1 {
      SpinePushBase(s, t, l);
    } else {
      SpinePushDown(s, t, l);
      SpinePush(s[1..], t.kids[|t.kids| - 1], l);
      SpinePushLift(s, t, l);
    }
  }

  /** `PushReady` carries over from a spine to its tail, one level down. */
  lemma {:induction false} SpinePushDown(s: seq<Frame>, t: Tree, l: Line)
    requires |s| >= 2 && PushReady(s, t, l)
    ensures t.kids != [] && PushReady(s[1..], t.kids[|t.kids| - 1], l)
  {
    SpineTail(s, t);
    LevelDown(t.kids, |s| - 1);
    assert forall i :: 0 <= i < |s[1..]| ==> s[1..][i].indent < l.indent;
  }

  /** `SpinePush` one level up: from the push below the bottom entry's last
      child to the push below the bottom entry. */
  lemma {:induction false} SpinePushLift(s: seq<Frame>, t: Tree, l: Line)
    requires |s| >= 2 && PushReady(s, t, l) && t.kids != []
    requires Pushed(s[1..], t.kids[|t.kids| - 1], l)
    ensures Pushed(s, t, l)
  {
    var fr := Frame(l.text, l.indent, []);
    SpineTail(s, t);
    InsertLast(t.kids, l);
    assert (s + [fr])[1..] == s[1..] + [fr];
    SpineCons(s + [fr], Tree(t.line, Insert(t.kids, l)));
    LevelDown(Insert(t.kids, l), |s|);
  }

  /** `Insert` below a last tree indented less than the line: every tree but
      the last stays, and the line goes into the last one. */
  lemma {:induction false} InsertLast(f: seq<Tree>, l: Line)
    requires f != [] && f[|f| - 1].line.indent < l.indent
    ensures |Insert(f, l)| == |f|
    ensures Insert(f, l)[..|f| - 1] == f[..|f| - 1]
    ensures Insert(f, l)[|f| - 1] == Tree(f[|f| - 1].line, Insert(f[|f| - 1].kids, l))
  {
  }

  /** The unfolding of `SpineOf` for a spine of two entries or more. */
  lemma {:induction false} SpineCons(s: seq<Frame>, t: Tree)
    requires |s| >= 2 && s[0].value == t.line.text && s[0].indent == t.line.indent
    requires t.kids != [] && s[0].kids == Strip(t.kids[..|t.kids| - 1])
    requires SpineOf(s[1..], t.kids[|t.kids| - 1])
    ensures SpineOf(s, t)
  {
  }

  /** The unfolding of `LevelOf` one level down. */
  lemma {:induction false} LevelDown(f: seq<Tree>, k: nat)
    requires f != [] && k >= 1
    ensures LevelOf(f, k) == LevelOf(f[|f| - 1].kids, k - 1)
  {
  }

  /** `SpinePush` for a one-entry spine: the line becomes the last child of
      the tree the entry stands for. */
  lemma {:induction false} SpinePushBase(s: seq<Frame>, t: Tree, l: Line)
    requires |s| == 1 && PushReady(s, t, l)
    ensures Pushed(s, t, l)
  {
    var fr := Frame(l.text, l.indent, []);
    var s' := s + [fr];
    var t' := Tree(t.line, Insert(t.kids, l));
    assert Insert(t.kids, l) == t.kids + [Tree(l, [])];
    assert t'.kids[..|t'.kids| - 1] == t.kids;
    assert s'[1..] == [fr];
    assert Strip([]) == [];
  }

  /** A pop keeps `Represents`, and the level the popped entry leaves ends
      with a tree indented as the popped entry was. */
  lemma {:induction false} RepresentsPop(features: seq<FeatureNode>, stack: seq<Frame>, g: seq<Tree>)
    requires stack != [] && Represents(features, stack, g)
    ensures Represents(PopFrame(features, stack).0, PopFrame(features, stack).1, g)
    ensures LevelOf(g, |stack| - 1) != []
    ensures LevelOf(g, |stack| - 1)[|LevelOf(g, |stack| - 1)| - 1].line.indent == stack[|stack| - 1].indent
  {
    var t := g[|g| - 1];
    if |stack| == 1 {
      assert g == g[..|g| - 1] + [t];
      StripAppend(g[..|g| - 1], [t]);
      StripOne(t);
    } else {
      SpineFold(stack, t);
      assert PopFrame(features, stack).1 == PopFrame([], stack).1;
    }
  }

  /** A push of line `l`, once every entry left is indented less than it,
      keeps `Represents` for the outline with `l` inserted. */
  lemma {:induction false} RepresentsPush(features: seq<FeatureNode>, stack: seq<Frame>, g: seq<Tree>, l: Line)
    requires Represents(features, stack, g)
    requires forall i :: 0 <= i < |stack| ==> stack[i].indent < l.indent
    requires var lv := LevelOf(g, |stack|); lv == [] || lv[|lv| - 1].line.indent >= l.indent
    ensures Represents(features, stack + [Frame(l.text, l.indent, [])], Insert(g, l))
    ensures LevelOf(Insert(g, l), |stack| + 1) == []
  {
    if stack == [] {
      RepresentsPushRoot(features, g, l);
    } else {
      RepresentsPushSpine(features, stack, g, l);
    }
  }

  /** `RepresentsPush` on an empty stack: the line becomes the last root. */
  lemma {:induction false} RepresentsPushRoot(features: seq<FeatureNode>, g: seq<Tree>, l: Line)
    requires Represents(features, [], g)
    requires g == [] || g[|g| - 1].line.indent >= l.indent
    ensures Represents(features, [Frame(l.text, l.indent, [])], Insert(g, l))
    ensures LevelOf(Insert(g, l), 1) == []
  {
    assert Insert(g, l) == g + [Tree(l, [])];
    assert (g + [Tree(l, [])])[..|g|] == g;
    assert Strip([]) == [];
  }

  /** `RepresentsPush` on a non-empty stack: the line goes under the last root. */
  lemma {:induction false} RepresentsPushSpine(features: seq<FeatureNode>, stack: seq<Frame>, g: seq<Tree>, l: Line)
    requires stack != [] && Represents(features, stack, g)
    requires forall i :: 0 <= i < |stack| ==> stack[i].indent < l.indent
    requires var lv := LevelOf(g, |stack|); lv == [] || lv[|lv| - 1].line.indent >= l.indent
    ensures Represents(features, stack + [Frame(l.text, l.indent, [])], Insert(g, l))
    ensures LevelOf(Insert(g, l), |stack| + 1) == []
  {
    var t := g[|g| - 1];
    InsertLast(g, l);
    LevelDown(g, |stack|);
    LevelDown(Insert(g, l), |stack| + 1);
    SpinePush(stack, t, l);
  }
}
