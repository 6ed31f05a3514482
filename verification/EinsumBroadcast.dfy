/** Two ellipses contract exactly like an elementwise operation: their operands broadcast. */
module EinsumBroadcast {
  import opened Wrappers
  import Shapes
  import opened Einsum
  import opened EinsumPlan
  import EinsumMeaning

  const EQUATION := "...,...->..."

  function Run(low: nat, s: Shape): (labels: seq<Label>)
    ensures |labels| == |s| && forall i :: 0 <= i < |s| ==> labels[i] == Ellipsis(low + i)
  {
    EllipsisRun(low, low + |s|)
  }

  function RunAxes(low: nat, s: Shape): (axes: seq<Axis>)
    ensures |axes| == |s| && forall i :: 0 <= i < |s| ==> axes[i] == Axis(Ellipsis(low + i), s[i])
  {
    AxesOf(Run(low, s), s)
  }

  /** An axis of an ellipsis has the one length it stands for. */
  lemma {:induction false} RunLengths(low: nat, s: Shape, l: Label)
    ensures LengthsOf(RunAxes(low, s), l) == if l.Ellipsis? && low <= l.k < low + |s| then [s[l.k - low]] else []
  {
    if |s| > 0 {
      var n := |s| - 1;
      RunLengths(low, s[..n], l);
      LengthsNext(RunAxes(low, s), l);
      assert RunAxes(low, s)[..n] == RunAxes(low, s[..n]);
    }
  }

  lemma {:induction false} LengthsConcat(x: seq<Axis>, y: seq<Axis>, l: Label)
    ensures LengthsOf(x + y, l) == LengthsOf(x, l) + LengthsOf(y, l)
  {
    if |y| == 0 {
      assert x + y == x;
    } else {
      var n := |y| - 1;
      LengthsConcat(x, y[..n], l);
      LengthsNext(x + y, l);
      LengthsNext(y, l);
      assert (x + y)[..|x + y| - 1] == x + y[..n];
    }
  }

  /** The axes of both operands, aligned on the right. */
  function BothAxes(a: Shape, b: Shape): seq<Axis> {
    var w := Shapes.Max(|a|, |b|);
    RunAxes(w - |a|, a) + RunAxes(w - |b|, b)
  }

  /** The length that an operand's ellipsis gives a label, if it reaches that far to the left. */
  function LengthAt(s: Shape, w: nat, l: Label): seq<nat>
    requires |s| <= w
  {
    if l.Ellipsis? && w - |s| <= l.k < w then [s[l.k - (w - |s|)]] else []
  }

  lemma RunLength(s: Shape, w: nat, l: Label)
    requires |s| <= w
    ensures LengthsOf(RunAxes(w - |s|, s), l) == LengthAt(s, w, l)
  {
    hide LengthsOf, RunAxes;
    RunLengths(w - |s|, s, l);
  }

  lemma BothLengths(a: Shape, b: Shape, l: Label)
    ensures var w := Shapes.Max(|a|, |b|); LengthsOf(BothAxes(a, b), l) == LengthAt(a, w, l) + LengthAt(b, w, l)
  {
    hide LengthsOf, RunAxes, LengthAt;
    var w := Shapes.Max(|a|, |b|);
    LengthsConcat(RunAxes(w - |a|, a), RunAxes(w - |b|, b), l);
    RunLength(a, w, l);
    RunLength(b, w, l);
  }

  ghost predicate Positive(s: Shape) {
    0 !in s
  }

  /** The two extents meet along an axis of the joined rank. */
  predicate Meets(a: Shape, b: Shape, k: nat)
    requires k < Shapes.Max(|a|, |b|)
  {
    var w := Shapes.Max(|a|, |b|);
    Shapes.Aligned(a, w, k) == Shapes.Aligned(b, w, k) || Shapes.Aligned(a, w, k) == 1 || Shapes.Aligned(b, w, k) == 1
  }

  /** Along each axis the fold of its lengths is their elementwise join. */
  lemma AxisJoins(a: Shape, b: Shape, k: nat)
    requires Positive(a) && Positive(b) && k < Shapes.Max(|a|, |b|)
    ensures var w := Shapes.Max(|a|, |b|);
            var lengths := LengthsOf(BothAxes(a, b), Ellipsis(k));
            |lengths| > 0 && (Joined(lengths).Some? <==> Meets(a, b, k)) &&
            (Meets(a, b, k) ==>
               ExtentOf(lengths) == Some(Shapes.JoinExtent(Shapes.Aligned(a, w, k), Shapes.Aligned(b, w, k))))
  {
    hide LengthsOf, BothAxes;
    BothLengths(a, b, Ellipsis(k));
    var w := Shapes.Max(|a|, |b|);
    var x, y := LengthAt(a, w, Ellipsis(k)), LengthAt(b, w, Ellipsis(k));
    if |x| == 1 && |y| == 1 {
      assert x[0] in a && y[0] in b;
      assert (x + y)[..1] == x && (x + y)[0] == x[0] && (x + y)[1] == y[0];
      assert Joined(x + y) == JoinStep(x[0], y[0]);
    } else if |x| == 1 {
      assert x[0] in a && x + y == x;
    } else {
      assert y[0] in b && x + y == y;
    }
  }

  lemma Unstuck(a: Shape, b: Shape)
    requires Positive(a) && Positive(b)
    ensures Joins(BothAxes(a, b)).Some? <==> Shapes.Compatible(a, b)
  {
    hide LengthsOf, BothAxes, Joins, Joined, ExtentOf;
    var axes, w := BothAxes(a, b), Shapes.Max(|a|, |b|);
    if Joins(axes).None? {
      JoinsByLabel(axes);
      var l :| Stuck(axes, l);
      BothLengths(a, b, l);
      AxisJoins(a, b, l.k);
    } else {
      forall k | 0 <= k < w
        ensures Meets(a, b, k)
      {
        AxisJoins(a, b, k);
        if !Meets(a, b, k) {
          StuckStops(axes, Ellipsis(k));
        }
      }
      assert Shapes.Compatible(a, b) by {
        forall k | 0 <= k < w
          ensures Shapes.Aligned(a, w, k) == Shapes.Aligned(b, w, k) || Shapes.Aligned(a, w, k) == 1 ||
                  Shapes.Aligned(b, w, k) == 1
        {
          assert Meets(a, b, k);
        }
      }
    }
  }

  // The equation

  const ELLIPSIS: seq<Piece> := [Dots]

  lemma {:induction false} StrippedPlain(text: string)
    requires forall i :: 0 <= i < |text| ==> !IsWhitespace(text[i])
    ensures Stripped(text) == text
  {
    if |text| > 0 {
      StrippedPlain(text[1..]);
      assert text == [text[0]] + text[1..];
    }
  }

  lemma Reading()
    ensures Split(Stripped(EQUATION)) == Some(Sides(["...", "..."], Some("...")))
    ensures Terms(["...", "..."]) == Some([ELLIPSIS, ELLIPSIS]) && Pieces("...") == Some(ELLIPSIS)
  {
    hide Stripped, Split, Terms, Pieces;
    StrippedPlain(EQUATION);
    var terms := [ELLIPSIS, ELLIPSIS];
    assert EinsumMeaning.Texts(terms) == ["...", "..."] by {
      assert Render(ELLIPSIS) == "...";
    }
    assert EinsumMeaning.Comma(["..."]) == "...";
    assert EinsumMeaning.Comma(["...", "..."]) == "...,...";
    assert EinsumMeaning.Spelling(terms, Some(ELLIPSIS)) == EQUATION;
    EinsumMeaning.SpellingSplits(terms, Some(ELLIPSIS));
    EinsumMeaning.TermsBack(terms);
    PiecesComplete(ELLIPSIS);
  }

  lemma Expands(low: nat, high: nat)
    requires low <= high
    ensures Expanded(ELLIPSIS, low, high) == EllipsisRun(low, high)
  {
    assert EllipsisRun(low, high) + [] == EllipsisRun(low, high);
  }

  lemma Labels(a: Shape, b: Shape)
    ensures var w, terms, shapes := Shapes.Max(|a|, |b|), [ELLIPSIS, ELLIPSIS], [a, b];
            Widest(terms, shapes, 2) == Some(w) && OperandLabels(terms, shapes, w) == [Run(w - |a|, a), Run(w - |b|, b)]
  {
    var w, terms, shapes := Shapes.Max(|a|, |b|), [ELLIPSIS, ELLIPSIS], [a, b];
    assert Letters(ELLIPSIS) == 0;
    assert Widest(terms, shapes, 1) == Some(|a|);
    Expands(w - |a|, w);
    Expands(w - |b|, w);
  }

  lemma Axes(a: Shape, b: Shape)
    ensures var w := Shapes.Max(|a|, |b|);
            AllAxes([Run(w - |a|, a), Run(w - |b|, b)], [a, b], 2) == BothAxes(a, b)
  {
    var w := Shapes.Max(|a|, |b|);
    var labels, shapes := [Run(w - |a|, a), Run(w - |b|, b)], [a, b];
    assert AllAxes(labels, shapes, 1) == [] + RunAxes(w - |a|, a);
  }

  /** Neither operand repeats a label, so joining the axes is all there is to it. */
  lemma JoinsBoth(a: Shape, b: Shape)
    ensures var w := Shapes.Max(|a|, |b|);
            Extents([Run(w - |a|, a), Run(w - |b|, b)], [a, b]) == Joins(BothAxes(a, b))
  {
    hide AllAxes, BothAxes, Joins, Run;
    var w := Shapes.Max(|a|, |b|);
    Axes(a, b);
    assert Consistent(AxesOf(Run(w - |a|, a), a)) && Consistent(AxesOf(Run(w - |b|, b), b));
  }

  /** What parsing settles before it looks at the output side. */
  lemma Fronts(a: Shape, b: Shape)
    requires Positive(a) && Positive(b)
    ensures var w, front := Shapes.Max(|a|, |b|), FrontOf(["...", "..."], [a, b]);
            if Shapes.Compatible(a, b)
            then Joins(BothAxes(a, b)).Some? &&
                 front == Ok(Front([Run(w - |a|, a), Run(w - |b|, b)], w,
                                   Zeroed(Joins(BothAxes(a, b)).value, BothAxes(a, b))))
            else front == Err(InvalidEinsum)
  {
    hide Terms, Widest, OperandLabels, AllAxes, BothAxes, Joins, Zeroed, Extents, Run, LengthsOf, Width, Pieces;
    Reading();
    Labels(a, b);
    Axes(a, b);
    Unstuck(a, b);
    JoinsBoth(a, b);
  }

  /** Every ellipsis axis, and nothing else, is recorded with the extent of the broadcast shape. */
  ghost predicate Records(m: map<Label, nat>, shape: Shape) {
    forall l :: RecordsAt(m, shape, l)
  }

  predicate RecordsAt(m: map<Label, nat>, shape: Shape, l: Label) {
    (l in m <==> l.Ellipsis? && l.k < |shape|) && (l in m ==> m[l] == shape[l.k])
  }

  lemma Recorded(a: Shape, b: Shape)
    requires Positive(a) && Positive(b) && Shapes.Compatible(a, b) && Joins(BothAxes(a, b)).Some?
    ensures Records(Zeroed(Joins(BothAxes(a, b)).value, BothAxes(a, b)), Shapes.Broadcast(a, b).value)
  {
    hide LengthsOf, BothAxes, Joins, Joined, ExtentOf, Zeroed;
    var w, shape := Shapes.Max(|a|, |b|), Shapes.Broadcast(a, b).value;
    forall l
      ensures RecordsAt(Zeroed(Joins(BothAxes(a, b)).value, BothAxes(a, b)), shape, l)
    {
      ExtentByLabel(BothAxes(a, b), l);
      BothLengths(a, b, l);
      if l.Ellipsis? && l.k < w {
        AxisJoins(a, b, l.k);
        assert Meets(a, b, l.k);
      }
    }
  }

  /** The plan's output has this shape, and nothing is summed. */
  ghost predicate Elementwise(plan: Plan, shape: Shape) {
    (forall l :: l in plan.outputLabels ==> l in plan.extents) && Dims(plan.extents, plan.outputLabels) == shape &&
    plan.contractedLabels == []
  }

  /** A plan for the joined shape, or its element count or its absence refused. */
  ghost predicate Broadcasts(r: Result<Plan, EinsumError>, joined: Option<Shape>) {
    match joined
    case None => r == Err(InvalidEinsum)
    case Some(shape) =>
      if Shapes.CheckedNumel(shape).Some? then r.Ok? && Elementwise(r.value, shape) else r == Err(ShapeOverflow)
  }

  lemma Finishes(f: Front, shape: Shape)
    requires f.width == |shape| && Records(f.extents, shape)
    ensures Broadcasts(Finish(f, EllipsisRun(0, |shape|)), Some(shape))
  {
    hide Contracted;
    var output := EllipsisRun(0, |shape|);
    assert forall k :: 0 <= k < |shape| ==> RecordsAt(f.extents, shape, Ellipsis(k));
    assert forall l :: l in f.extents ==> RecordsAt(f.extents, shape, l);
    assert forall l :: l in f.extents ==> l.k < |shape| && output[l.k] == l;
    assert Enumerable(f.extents, f.width);
    ContractedIs(f.extents, output, f.width);
    var rest := Contracted(f.extents, output, f.width);
    EinsumMeaning.MembersOf(rest);
    assert Dims(f.extents, output) == shape;
    assert Shapes.CheckedNumel(Dims(f.extents, [])) == Some(1);
  }

  /**
   * Two positive shapes contract under ellipses alone exactly when they broadcast, and the output has the broadcast
   * shape; only its element count can still be refused.
   */
  lemma EllipsesBroadcast(a: Shape, b: Shape)
    requires Positive(a) && Positive(b)
    ensures Broadcasts(PlanOf(EQUATION, [a, b]), Shapes.Broadcast(a, b))
  {
    hide FrontOf, Finish, Joins, Zeroed, BothAxes, Stripped, Split, Terms, Pieces, Elementwise, Expanded;
    Reading();
    Fronts(a, b);
    if Shapes.Compatible(a, b) {
      Recorded(a, b);
      var f := FrontOf(["...", "..."], [a, b]).value;
      var shape := Shapes.Broadcast(a, b).value;
      Expands(0, f.width);
      assert OutputOf(f, Some("...")) == Some(EllipsisRun(0, |shape|));
      Finishes(f, shape);
    }
  }
}
