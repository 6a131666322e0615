/**
  The editor's delta (normalize.ts:25-35) and the outline lines it spells out.

  A line ends at a list-terminating break, an op whose insert is exactly
  "\n" and that carries a `list` attribute. Its text is everything inserted
  since the previous terminator, line feeds removed, then trimmed; a blank
  one is dropped. `SplitLines` says this segment by segment, from the front;
  the normalizer's loop accumulates the same text op by op, and `SplitSnoc`
  is where the two meet.
*/
module DeltaLines {
  import opened Wrappers
  import opened JsString
  import opened Outline
  import opened Seqs

  datatype ListKind = Bullet | Ordered

  /** `attributes?: { list?, indent? }` */
  datatype Attributes = Attributes(list: Option<ListKind>, indent: Option<int>)

  datatype DeltaOp = DeltaOp(insert: string, attributes: Option<Attributes>)

  datatype Delta = Delta(ops: seq<DeltaOp>)

  /** `op.insert === "\n" && op.attributes?.list` (normalize.ts:45): the
      insert is the one-character string "\n". */
  predicate IsTerminator(op: DeltaOp) {
    |op.insert| == 1 && op.insert[0] == '\n' && op.attributes.Some? && op.attributes.value.list.Some?
  }

  /** `op.attributes?.indent ?? 0` (normalize.ts:82). */
  function IndentOrZero(op: DeltaOp): int {
    if op.attributes.Some? then op.attributes.value.indent.GetOr(0) else 0
  }

  /** `if (op.attributes?.indent)` (normalize.ts:52): present and, being a
      number, truthy, that is non-zero. */
  predicate HasTruthyIndent(op: DeltaOp) {
    op.attributes.Some? && op.attributes.value.indent.Some? && op.attributes.value.indent.value != 0
  }

  /** The indent a line is placed by: the terminator's own when truthy,
      otherwise the pending one. */
  function LineIndent(pending: int, term: DeltaOp): int {
    if HasTruthyIndent(term) then term.attributes.value.indent.value else pending
  }

  /** The position of the first terminator, or `|ops|` when there is none. */
  function NextTerminator(ops: seq<DeltaOp>): (t: nat)
    ensures t <= |ops|
  {
    if ops == [] || IsTerminator(ops[0]) then 0 else 1 + NextTerminator(ops[1..])
  }

  /** `NextTerminator` finds the first terminator: none comes before it. */
  lemma {:induction false} NextTerminatorSpec(ops: seq<DeltaOp>)
    ensures forall i :: 0 <= i < NextTerminator(ops) ==> !IsTerminator(ops[i])
    ensures NextTerminator(ops) < |ops| ==> IsTerminator(ops[NextTerminator(ops)])
    decreases |ops|
  {
    if ops != [] && !IsTerminator(ops[0]) {
      NextTerminatorSpec(ops[1..]);
      assert forall i :: 1 <= i < |ops| ==> ops[i] == ops[1..][i - 1];
    }
  }

  /** The text a run of plain ops contributes: their inserts in order, each
      with its line feeds removed (normalize.ts:81). */
  function Concat(segment: seq<DeltaOp>): string {
    if segment == [] then ""
    else Concat(segment[..|segment| - 1]) + StripNewlines(segment[|segment| - 1].insert)
  }

  /** The pending indent after a run of plain ops: the last one's indent, or 0
      (normalize.ts:42, 79, 82). */
  function PendingIndent(segment: seq<DeltaOp>): int {
    if segment == [] then 0 else IndentOrZero(segment[|segment| - 1])
  }

  /** The line, if any, that terminator `term` ends after the plain ops
      `segment`: none when the text is blank (normalize.ts:47-53). */
  function LineOf(segment: seq<DeltaOp>, term: DeltaOp): seq<Line> {
    var text := Trim(Concat(segment));
    if text == "" then [] else [Line(text, LineIndent(PendingIndent(segment), term))]
  }

  /** The outline lines of a delta, segment by segment; ops after the last
      terminator end no line (normalize.ts:86). */
  function SplitLines(ops: seq<DeltaOp>): seq<Line>
    decreases |ops|
  {
    var t := NextTerminator(ops);
    if t == |ops| then [] else LineOf(ops[..t], ops[t]) + SplitLines(ops[t + 1..])
  }

  /** The plain ops after the last terminator: what the accumulators hold. */
  function Pending(ops: seq<DeltaOp>): seq<DeltaOp>
    decreases |ops|
  {
    var t := NextTerminator(ops);
    if t == |ops| then ops else Pending(ops[t + 1..])
  }

  // ---------------------------------------------------------------------
  // Lemmas

  lemma {:induction false} NextTerminatorSnoc(ops: seq<DeltaOp>, op: DeltaOp)
    ensures NextTerminator(ops + [op])
         == if NextTerminator(ops) < |ops| || IsTerminator(op) then NextTerminator(ops) else |ops| + 1
  {
    var q := ops + [op];
    if ops == [] {
      assert q == [op];
      assert q[1..] == [];
    } else {
      assert q[0] == ops[0];
      assert q[1..] == ops[1..] + [op];
      NextTerminatorSnoc(ops[1..], op);
    }
  }

  /** One more op: a terminator ends the pending line (if it is not blank)
      and empties the accumulators; any other op joins the pending ones. */
  lemma {:induction false} SplitSnoc(ops: seq<DeltaOp>, op: DeltaOp)
    ensures SplitLines(ops + [op])
         == SplitLines(ops) + if IsTerminator(op) then LineOf(Pending(ops), op) else []
    ensures Pending(ops + [op]) == if IsTerminator(op) then [] else Pending(ops) + [op]
  {
    SplitLinesSnoc(ops, op);
    PendingSnoc(ops, op);
  }

  /** `SplitLines` without a terminator. */
  lemma {:induction false} SplitNone(ops: seq<DeltaOp>)
    requires NextTerminator(ops) == |ops|
    ensures SplitLines(ops) == []
  {
  }

  /** `SplitLines` unfolded at its first terminator `t`. */
  lemma {:induction false} SplitAt(ops: seq<DeltaOp>, t: nat)
    requires t == NextTerminator(ops) < |ops|
    ensures SplitLines(ops) == LineOf(ops[..t], ops[t]) + SplitLines(ops[t + 1..])
  {
  }

  /** `Pending` unfolded once. */
  lemma {:induction false} UnfoldPending(ops: seq<DeltaOp>)
    ensures NextTerminator(ops) == |ops| ==> Pending(ops) == ops
    ensures NextTerminator(ops) < |ops| ==> Pending(ops) == Pending(ops[NextTerminator(ops) + 1..])
  {
  }

  /** The lines of one more op: a terminator adds the line of the pending
      ops, if any; any other op adds nothing. */
  lemma {:induction false} SplitLinesSnoc(ops: seq<DeltaOp>, op: DeltaOp)
    ensures SplitLines(ops + [op])
         == SplitLines(ops) + if IsTerminator(op) then LineOf(Pending(ops), op) else []
    decreases |ops|
  {
    if NextTerminator(ops) < |ops| {
      SplitLinesSnoc(ops[NextTerminator(ops) + 1..], op);
      SplitLinesSnocStep(ops, op);
    } else {
      SplitLinesSnocLast(ops, op);
    }
  }

  /** `SplitLinesSnoc` when `ops` holds a terminator: the first segment stays
      in front, and the rest is the case for the ops after it. */
  lemma {:induction false} SplitLinesSnocStep(ops: seq<DeltaOp>, op: DeltaOp)
    requires NextTerminator(ops) < |ops|
    requires var r := ops[NextTerminator(ops) + 1..];
             SplitLines(r + [op]) == SplitLines(r) + if IsTerminator(op) then LineOf(Pending(r), op) else []
    ensures SplitLines(ops + [op])
         == SplitLines(ops) + if IsTerminator(op) then LineOf(Pending(ops), op) else []
  {
    var t := NextTerminator(ops);
    var r := ops[t + 1..];
    SplitSnocFront(ops, op);
    SplitAt(ops, t);
    UnfoldPending(ops);
    var x := if IsTerminator(op) then LineOf(Pending(r), op) else [];
    Regroup(LineOf(ops[..t], ops[t]), SplitLines(r), x, SplitLines(r + [op]), SplitLines(ops + [op]), SplitLines(ops));
  }

  /** With a terminator in `ops`, one more op leaves the first segment in front. */
  lemma {:induction false} SplitSnocFront(ops: seq<DeltaOp>, op: DeltaOp)
    requires NextTerminator(ops) < |ops|
    ensures SplitLines(ops + [op])
         == LineOf(ops[..NextTerminator(ops)], ops[NextTerminator(ops)]) + SplitLines(ops[NextTerminator(ops) + 1..] + [op])
  {
    var t := NextTerminator(ops);
    SnocSlice(ops, op, 0, t);
    SnocIndex(ops, op, t);
    SnocSuffix(ops, op, t + 1);
    NextTerminatorSnoc(ops, op);
    SplitAt(ops + [op], t);
  }

  /** `SplitLinesSnoc` when `ops` holds no terminator: they are all pending,
      and a terminator `op` ends their line. */
  lemma {:induction false} SplitLinesSnocLast(ops: seq<DeltaOp>, op: DeltaOp)
    requires NextTerminator(ops) == |ops|
    ensures SplitLines(ops + [op])
         == SplitLines(ops) + if IsTerminator(op) then LineOf(Pending(ops), op) else []
  {
    var q := ops + [op];
    NextTerminatorSnoc(ops, op);
    SplitNone(ops);
    UnfoldPending(ops);
    if IsTerminator(op) {
      assert q[..|ops|] == ops;
      assert q[|ops| + 1..] == [];
      SplitAt(q, |ops|);
      SplitNone([]);
    } else {
      SplitNone(q);
    }
  }

  lemma {:induction false} PendingSnoc(ops: seq<DeltaOp>, op: DeltaOp)
    ensures Pending(ops + [op]) == if IsTerminator(op) then [] else Pending(ops) + [op]
    decreases |ops|
  {
    var q := ops + [op];
    var t := NextTerminator(ops);
    NextTerminatorSnoc(ops, op);
    if t < |ops| {
      assert q[t + 1..] == ops[t + 1..] + [op];
      PendingSnoc(ops[t + 1..], op);
    } else if IsTerminator(op) {
      assert q[t + 1..] == [];
    }
  }

  /** What the normalizer's two accumulators hold one op later: a
      terminator empties both; any other op appends its text, line feeds
      removed, and sets the indent to its own, or 0 (normalize.ts:78-82). */
  lemma {:induction false} AccumulatorsSnoc(ops: seq<DeltaOp>, op: DeltaOp)
    ensures IsTerminator(op) ==>
              Concat(Pending(ops + [op])) == "" && PendingIndent(Pending(ops + [op])) == 0
    ensures !IsTerminator(op) ==>
              && Concat(Pending(ops + [op])) == Concat(Pending(ops)) + StripNewlines(op.insert)
              && PendingIndent(Pending(ops + [op])) == IndentOrZero(op)
  {
    PendingSnoc(ops, op);
    var p := Pending(ops);
    if !IsTerminator(op) {
      assert (p + [op])[..|p|] == p;
    }
  }

  /** `p` is what follows the last terminator of `ops`: a suffix of `ops`
      holding no terminator, preceded by a terminator unless it is all of
      `ops`. */
  predicate IsPendingTail(ops: seq<DeltaOp>, p: seq<DeltaOp>) {
    && |p| <= |ops|
    && p == ops[|ops| - |p|..]
    && (forall i :: 0 <= i < |p| ==> !IsTerminator(p[i]))
    && (|p| < |ops| ==> IsTerminator(ops[|ops| - |p| - 1]))
  }

  /** The pending ops are exactly those after the last terminator. */
  lemma {:induction false} PendingIsTail(ops: seq<DeltaOp>)
    ensures IsPendingTail(ops, Pending(ops))
    decreases |ops|
  {
    if ops == [] {
      UnfoldPending(ops);
    } else {
      var init := ops[..|ops| - 1];
      assert ops == init + [ops[|ops| - 1]];
      PendingIsTail(init);
      PendingTailSnoc(init, ops[|ops| - 1]);
    }
  }

  /** The inductive step of `PendingIsTail`. */
  lemma {:induction false} PendingTailSnoc(ops: seq<DeltaOp>, op: DeltaOp)
    requires IsPendingTail(ops, Pending(ops))
    ensures IsPendingTail(ops + [op], Pending(ops + [op]))
  {
    PendingSnoc(ops, op);
    if IsTerminator(op) {
      TailAfterTerminator(ops, op);
    } else {
      TailGrows(ops, Pending(ops), op);
    }
  }

  /** A terminator as the last op leaves an empty tail. */
  lemma {:induction false} TailAfterTerminator(ops: seq<DeltaOp>, op: DeltaOp)
    requires IsTerminator(op)
    ensures IsPendingTail(ops + [op], [])
  {
    var q := ops + [op];
    assert q[|q|..] == [];
    assert q[|q| - 1] == op;
  }

  /** Any other op as the last one joins the tail. */
  lemma {:induction false} TailGrows(ops: seq<DeltaOp>, p: seq<DeltaOp>, op: DeltaOp)
    requires IsPendingTail(ops, p) && !IsTerminator(op)
    ensures IsPendingTail(ops + [op], p + [op])
  {
    SnocSuffix(ops, op, |ops| - |p|);
    if |p| < |ops| {
      SnocIndex(ops, op, |ops| - |p| - 1);
    }
    assert forall i :: 0 <= i < |p| ==> (p + [op])[i] == p[i];
  }

  /** What a feature's value looks like: non-blank, trimmed, and without a
      line feed. */
  predicate WellFormedText(s: string) {
    s != "" && IsTrimmed(s) && '\n' !in s
  }

  /** The accumulated text never holds a line feed. */
  lemma {:induction false} ConcatNoNewline(segment: seq<DeltaOp>)
    ensures '\n' !in Concat(segment)
  {
    if segment != [] {
      ConcatNoNewline(segment[..|segment| - 1]);
      StripNewlinesSpec(segment[|segment| - 1].insert);
    }
  }

  /** The line a terminator ends is non-blank, trimmed and free of line feeds. */
  lemma {:induction false} LineOfWellFormed(segment: seq<DeltaOp>, term: DeltaOp)
    ensures forall l :: l in LineOf(segment, term) ==> WellFormedText(l.text)
  {
    var s := Concat(segment);
    ConcatNoNewline(segment);
    TrimSpec(s);
    if '\n' in Trim(s) {
      TrimKeeps(s, '\n');
    }
  }

  /** Every line is non-blank, trimmed and free of line feeds
      (normalize.ts:47-50, 81). */
  lemma {:induction false} LinesWellFormed(ops: seq<DeltaOp>)
    ensures forall l :: l in SplitLines(ops) ==> WellFormedText(l.text)
    decreases |ops|
  {
    var t := NextTerminator(ops);
    if t < |ops| {
      SplitAt(ops, t);
      LineOfWellFormed(ops[..t], ops[t]);
      LinesWellFormed(ops[t + 1..]);
    } else {
      SplitNone(ops);
    }
  }

  /** The terminators that end a line: those whose pending text is not blank. */
  ghost function LineEnds(ops: seq<DeltaOp>): set<nat> {
    set t | 0 <= t < |ops| && IsTerminator(ops[t]) && Trim(Concat(Pending(ops[..t]))) != ""
  }

  /** `LineEnds` of one more op: the new position joins when it ends a line. */
  lemma {:induction false} LineEndsSnoc(p: seq<DeltaOp>, op: DeltaOp)
    ensures LineEnds(p + [op])
         == LineEnds(p) + if IsTerminator(op) && Trim(Concat(Pending(p))) != "" then {|p|} else {}
  {
    var ops := p + [op];
    assert ops[..|p|] == p;
    forall t | 0 <= t < |p| ensures ops[..t] == p[..t] && ops[t] == p[t] {}
  }

  /** There is one line per list-terminating break whose pending text is not
      blank (normalize.ts:45-50). */
  lemma {:induction false} LineCount(ops: seq<DeltaOp>)
    ensures |SplitLines(ops)| == |LineEnds(ops)|
    decreases |ops|
  {
    if ops == [] {
      SplitNone(ops);
      assert LineEnds(ops) == {};
    } else {
      var p := ops[..|ops| - 1];
      var op := ops[|ops| - 1];
      assert ops == p + [op];
      LineCount(p);
      SplitSnoc(p, op);
      LineEndsSnoc(p, op);
      assert |p| !in LineEnds(p);
    }
  }

  /** Without a list-terminating break there are no lines at all. */
  lemma {:induction false} NoTerminatorNoLines(ops: seq<DeltaOp>)
    requires forall i :: 0 <= i < |ops| ==> !IsTerminator(ops[i])
    ensures SplitLines(ops) == []
  {
    NextTerminatorSpec(ops);
    SplitNone(ops);
  }

  /** Ops after the last list-terminating break end no line: whatever text
      they carry is discarded (normalize.ts:86). */
  lemma {:induction false} TrailingOpsEndNoLine(ops: seq<DeltaOp>, tail: seq<DeltaOp>)
    requires forall i :: 0 <= i < |tail| ==> !IsTerminator(tail[i])
    ensures SplitLines(ops + tail) == SplitLines(ops)
    decreases |tail|
  {
    if tail == [] {
      assert ops + tail == ops;
    } else {
      var init := tail[..|tail| - 1];
      var last := tail[|tail| - 1];
      assert ops + tail == (ops + init) + [last];
      assert forall i :: 0 <= i < |init| ==> init[i] == tail[i];
      TrailingOpsEndNoLine(ops, init);
      SplitSnoc(ops + init, last);
    }
  }

  /** A terminator after blank text ends no line (normalize.ts:49). */
  lemma {:induction false} BlankLineDropped(ops: seq<DeltaOp>, op: DeltaOp)
    requires IsTerminator(op) && AllWhiteSpace(Concat(Pending(ops)))
    ensures SplitLines(ops + [op]) == SplitLines(ops)
  {
    SplitSnoc(ops, op);
    TrimEmptyIff(Concat(Pending(ops)));
  }

  /** A terminator after non-blank text ends exactly one line: the trimmed
      pending text, placed by the terminator's indent when that is non-zero
      and otherwise by the indent of the last plain op since the previous
      terminator, or 0 when there was none (normalize.ts:47-53, 79, 82). */
  lemma {:induction false} LineEnded(ops: seq<DeltaOp>, op: DeltaOp)
    requires IsTerminator(op) && !AllWhiteSpace(Concat(Pending(ops)))
    ensures SplitLines(ops + [op]) == SplitLines(ops) + [Line(
              Trim(Concat(Pending(ops))),
              if HasTruthyIndent(op) then op.attributes.value.indent.value
              else if Pending(ops) == [] then 0
              else IndentOrZero(Pending(ops)[|Pending(ops)| - 1]))]
  {
    SplitSnoc(ops, op);
    TrimEmptyIff(Concat(Pending(ops)));
  }
}
