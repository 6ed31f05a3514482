/**
 * Reordering the operands of an equation, shapes and all, reorders its plan's operand labels and changes nothing else.
 */
module EinsumOrder {
  import opened Wrappers
  import opened Axes
  import opened Einsum
  import opened EinsumPlan

  function Reordered<T>(xs: seq<T>, p: seq<nat>): (r: seq<T>)
    requires Permutes(p, |xs|)
    ensures |r| == |xs| && forall i :: 0 <= i < |xs| ==> r[i] == xs[p[i]]
  {
    seq(|xs|, i requires 0 <= i < |xs| => xs[p[i]])
  }

  /** What holds of all elements holds of all elements in any order. */
  lemma AllReordered<T(!new)>(xs: seq<T>, p: seq<nat>, good: T -> bool)
    requires Permutes(p, |xs|)
    ensures (forall i :: 0 <= i < |xs| ==> good(xs[i])) <==> (forall i :: 0 <= i < |xs| ==> good(Reordered(xs, p)[i]))
  {
    if forall i :: 0 <= i < |xs| ==> good(Reordered(xs, p)[i]) {
      forall i | 0 <= i < |xs|
        ensures good(xs[i])
      {
        var k := Position(p, i);
        assert Reordered(xs, p)[k] == xs[i];
      }
    }
  }

  // Terms and widths

  lemma {:induction false} TermsIff(texts: seq<string>)
    ensures Terms(texts).Some? <==> forall i :: 0 <= i < |texts| ==> Pieces(texts[i]).Some?
  {
    hide Pieces;
    if |texts| > 0 {
      TermsIff(texts[..|texts| - 1]);
    }
  }

  lemma TermsReordered(texts: seq<string>, p: seq<nat>)
    requires Permutes(p, |texts|)
    ensures match Terms(texts)
            case None => Terms(Reordered(texts, p)).None?
            case Some(terms) => Terms(Reordered(texts, p)) == Some(Reordered(terms, p))
  {
    hide Pieces, Terms;
    TermsIff(texts);
    TermsIff(Reordered(texts, p));
    AllReordered(texts, p, text => Pieces(text).Some?);
    if Terms(texts).Some? {
      var terms, others := Terms(texts).value, Terms(Reordered(texts, p)).value;
      assert forall i :: 0 <= i < |texts| ==> Pieces(texts[p[i]]) == Some(terms[p[i]]);
      assert others == Reordered(terms, p);
    }
  }

  /** The widest ellipsis is a width, or zero, and at least every width. */
  lemma {:induction false} WidestIs(terms: seq<seq<Piece>>, shapes: seq<Shape>, n: nat)
    requires n <= |terms| == |shapes|
    ensures Widest(terms, shapes, n).Some? <==> forall i :: 0 <= i < n ==> Width(terms[i], |shapes[i]|).Some?
    ensures Widest(terms, shapes, n).Some? ==>
              Widest(terms, shapes, n) == Some(0) ||
              exists i :: 0 <= i < n && Width(terms[i], |shapes[i]|) == Widest(terms, shapes, n)
  {
    hide Width;
    if n > 0 {
      WidestIs(terms, shapes, n - 1);
    }
  }

  /** Every term of `terms`, with its shape, is one of `others`. */
  ghost predicate Among(terms: seq<seq<Piece>>, shapes: seq<Shape>, others: seq<seq<Piece>>, dims: seq<Shape>)
    requires |terms| == |shapes| == |others| == |dims|
  {
    forall i: nat :: i < |terms| ==> IsOneOf(terms[i], shapes[i], others, dims)
  }

  ghost predicate IsOneOf(term: seq<Piece>, shape: Shape, others: seq<seq<Piece>>, dims: seq<Shape>)
    requires |others| == |dims|
  {
    exists k: nat :: k < |others| && others[k] == term && dims[k] == shape
  }

  lemma WidestBelow(terms: seq<seq<Piece>>, shapes: seq<Shape>, others: seq<seq<Piece>>, dims: seq<Shape>)
    requires |terms| == |shapes| == |others| == |dims| && Among(terms, shapes, others, dims)
    requires Widest(others, dims, |others|).Some?
    ensures Widest(terms, shapes, |terms|).Some?
    ensures Widest(terms, shapes, |terms|).value <= Widest(others, dims, |others|).value
  {
    hide Width, Widest;
    var b := Widest(others, dims, |others|).value;
    forall i: nat | i < |terms|
      ensures Width(terms[i], |shapes[i]|).Some? && Width(terms[i], |shapes[i]|).value <= b
    {
      assert IsOneOf(terms[i], shapes[i], others, dims);
    }
    WidestIs(terms, shapes, |terms|);
  }

  lemma ReorderedAmong(terms: seq<seq<Piece>>, shapes: seq<Shape>, p: seq<nat>)
    requires |terms| == |shapes| && Permutes(p, |terms|)
    ensures Among(terms, shapes, Reordered(terms, p), Reordered(shapes, p))
    ensures Among(Reordered(terms, p), Reordered(shapes, p), terms, shapes)
  {
    var others, dims := Reordered(terms, p), Reordered(shapes, p);
    forall i: nat | i < |terms|
      ensures IsOneOf(terms[i], shapes[i], others, dims)
    {
      var k := Position(p, i);
      assert others[k] == terms[i] && dims[k] == shapes[i];
    }
    forall i: nat | i < |terms|
      ensures IsOneOf(others[i], dims[i], terms, shapes)
    {
      assert terms[p[i]] == others[i] && shapes[p[i]] == dims[i];
    }
  }

  lemma WidestSame(terms: seq<seq<Piece>>, shapes: seq<Shape>, others: seq<seq<Piece>>, dims: seq<Shape>)
    requires |terms| == |shapes| == |others| == |dims|
    requires Among(terms, shapes, others, dims) && Among(others, dims, terms, shapes)
    ensures Widest(others, dims, |terms|) == Widest(terms, shapes, |terms|)
  {
    hide Widest, Among;
    if Widest(others, dims, |terms|).Some? {
      WidestBelow(terms, shapes, others, dims);
    }
    if Widest(terms, shapes, |terms|).Some? {
      WidestBelow(others, dims, terms, shapes);
    }
  }

  lemma WidestReordered(terms: seq<seq<Piece>>, shapes: seq<Shape>, p: seq<nat>)
    requires |terms| == |shapes| && Permutes(p, |terms|)
    ensures Widest(Reordered(terms, p), Reordered(shapes, p), |terms|) == Widest(terms, shapes, |terms|)
  {
    hide Widest, Among, Permutes;
    ReorderedAmong(terms, shapes, p);
    WidestSame(terms, shapes, Reordered(terms, p), Reordered(shapes, p));
  }

  // Extents

  lemma {:induction false} InAllAxes(labels: seq<seq<Label>>, shapes: seq<Shape>, n: nat, x: Axis)
    requires Labelled(labels, shapes) && n <= |labels|
    ensures x in AllAxes(labels, shapes, n) <==> exists i :: 0 <= i < n && x in AxesOf(labels[i], shapes[i])
  {
    hide AxesOf;
    if n > 0 {
      InAllAxes(labels, shapes, n - 1, x);
    }
  }

  lemma AxesReordered(labels: seq<seq<Label>>, shapes: seq<Shape>, p: seq<nat>, x: Axis)
    requires Labelled(labels, shapes) && Permutes(p, |labels|)
    ensures Labelled(Reordered(labels, p), Reordered(shapes, p))
    ensures x in AllAxes(labels, shapes, |labels|) <==>
            x in AllAxes(Reordered(labels, p), Reordered(shapes, p), |labels|)
  {
    hide AxesOf, AllAxes;
    var n, others, dims := |labels|, Reordered(labels, p), Reordered(shapes, p);
    InAllAxes(labels, shapes, n, x);
    InAllAxes(others, dims, n, x);
    if i :| 0 <= i < n && x in AxesOf(labels[i], shapes[i]) {
      var k := Position(p, i);
      assert others[k] == labels[i] && dims[k] == shapes[i];
    }
    if k :| 0 <= k < n && x in AxesOf(others[k], dims[k]) {
      assert x in AxesOf(labels[p[k]], shapes[p[k]]);
    }
  }

  ghost predicate Positive(shapes: seq<Shape>) {
    forall i, j :: 0 <= i < |shapes| && 0 <= j < |shapes[i]| ==> shapes[i][j] > 0
  }

  lemma {:induction false} PositiveAxes(labels: seq<seq<Label>>, shapes: seq<Shape>, n: nat)
    requires Labelled(labels, shapes) && Positive(shapes) && n <= |labels|
    ensures forall x :: x in AllAxes(labels, shapes, n) ==> x.length > 0
  {
    if n > 0 {
      PositiveAxes(labels, shapes, n - 1);
      assert forall x :: x in AxesOf(labels[n - 1], shapes[n - 1]) ==> x.length > 0;
    }
  }

  /** The recorded extents, when there are any. */
  ghost function Recorded(labels: seq<seq<Label>>, shapes: seq<Shape>): Option<map<Label, nat>>
    requires Labelled(labels, shapes)
  {
    match Extents(labels, shapes)
    case None => None
    case Some(m) => Some(Zeroed(m, AllAxes(labels, shapes, |labels|)))
  }

  lemma RecordedReordered(labels: seq<seq<Label>>, shapes: seq<Shape>, p: seq<nat>)
    requires Labelled(labels, shapes) && Positive(shapes) && Permutes(p, |labels|)
    ensures Labelled(Reordered(labels, p), Reordered(shapes, p))
    ensures Recorded(Reordered(labels, p), Reordered(shapes, p)) == Recorded(labels, shapes)
  {
    hide Joins, Zeroed, AllAxes, AxesOf, Consistent;
    var n, others, dims := |labels|, Reordered(labels, p), Reordered(shapes, p);
    var a, b := AllAxes(labels, shapes, n), AllAxes(others, dims, n);
    forall x
      ensures x in a <==> x in b
    {
      AxesReordered(labels, shapes, p, x);
    }
    PositiveAxes(labels, shapes, n);
    ExtentsOrderFree(a, b);
    ConsistentReordered(labels, shapes, p);
  }

  lemma ConsistentReordered(labels: seq<seq<Label>>, shapes: seq<Shape>, p: seq<nat>)
    requires Labelled(labels, shapes) && Permutes(p, |labels|)
    ensures Labelled(Reordered(labels, p), Reordered(shapes, p))
    ensures (forall i: nat :: i < |labels| ==> Consistent(AxesOf(labels[i], shapes[i]))) <==>
            forall i: nat :: i < |labels| ==> Consistent(AxesOf(Reordered(labels, p)[i], Reordered(shapes, p)[i]))
  {
    hide AxesOf, Consistent;
    var n, others, dims := |labels|, Reordered(labels, p), Reordered(shapes, p);
    if forall i: nat :: i < n ==> Consistent(AxesOf(others[i], dims[i])) {
      forall i: nat | i < n
        ensures Consistent(AxesOf(labels[i], shapes[i]))
      {
        var k := Position(p, i);
        assert others[k] == labels[i] && dims[k] == shapes[i];
      }
    }
  }

  // The implicit output

  function Sum(xs: seq<nat>): nat {
    if |xs| == 0 then 0 else Sum(xs[..|xs| - 1]) + xs[|xs| - 1]
  }

  lemma {:induction false} SumWithout(xs: seq<nat>, k: nat)
    requires k < |xs|
    ensures Sum(xs) == Sum(xs[..k] + xs[k + 1..]) + xs[k]
  {
    var n := |xs| - 1;
    var rest := xs[..k] + xs[k + 1..];
    if k == n {
      assert rest == xs[..n];
    } else {
      SumWithout(xs[..n], k);
      assert rest[..n - 1] == xs[..n][..k] + xs[..n][k + 1..] && rest[n - 1] == xs[n];
    }
  }

  /** A sum does not depend on the order of its terms. */
  lemma {:induction false} SumReordered(xs: seq<nat>, p: seq<nat>)
    requires Permutes(p, |xs|)
    ensures Sum(Reordered(xs, p)) == Sum(xs)
    decreases |xs|
  {
    hide Permutes, Reordered;
    if |xs| > 0 {
      var n := |xs| - 1;
      var k := Largest(p, n);
      RestReordered(xs, p, n, k);
      SumReordered(xs[..n], p[..k] + p[k + 1..]);
      SumWithout(Reordered(xs, p), k);
    }
  }

  lemma Largest(p: seq<nat>, n: nat) returns (k: nat)
    requires Permutes(p, n + 1)
    ensures k <= n && |p| == n + 1 && p[k] == n && Permutes(p[..k] + p[k + 1..], n)
  {
    k := Position(p, n);
    RestPermutes(p, n, k);
  }

  /** Taking the largest entry out of a permutation leaves a permutation. */
  lemma RestPermutes(p: seq<nat>, n: nat, k: nat)
    requires Permutes(p, n + 1) && k <= n && p[k] == n
    ensures Permutes(p[..k] + p[k + 1..], n)
  {
    var rest := p[..k] + p[k + 1..];
    assert forall i :: 0 <= i < n ==> rest[i] == p[if i < k then i else i + 1];
    forall a: nat | a < n
      ensures a in rest
    {
      var i := Position(p, a);
      assert rest[if i < k then i else i - 1] == a;
    }
  }

  lemma RestReordered(xs: seq<nat>, p: seq<nat>, n: nat, k: nat)
    requires |xs| == n + 1 && Permutes(p, n + 1) && k <= n && p[k] == n && Permutes(p[..k] + p[k + 1..], n)
    ensures var all := Reordered(xs, p);
            all[..k] + all[k + 1..] == Reordered(xs[..n], p[..k] + p[k + 1..]) && all[k] == xs[n]
  {
    assert |p| == n + 1;
    hide Permutes;
    var rest, all := p[..k] + p[k + 1..], Reordered(xs, p);
    forall i | 0 <= i < n
      ensures (all[..k] + all[k + 1..])[i] == Reordered(xs[..n], rest)[i]
    {
      assert rest[i] == p[if i < k then i else i + 1];
    }
  }

  function Tally(labels: seq<seq<Label>>, l: Label): (counts: seq<nat>)
    ensures |counts| == |labels| && forall i :: 0 <= i < |labels| ==> counts[i] == CountOf(labels[i], l)
  {
    seq(|labels|, i requires 0 <= i < |labels| => CountOf(labels[i], l))
  }

  lemma {:induction false} CountFlatten(labels: seq<seq<Label>>, l: Label)
    ensures CountOf(Flatten(labels), l) == Sum(Tally(labels, l))
  {
    hide CountOf;
    if |labels| > 0 {
      var n := |labels| - 1;
      CountFlatten(labels[..n], l);
      CountConcat(Flatten(labels[..n]), labels[n], l);
      assert Tally(labels, l)[..n] == Tally(labels[..n], l);
    } else {
      NoCount(l);
    }
  }

  lemma NoCount(l: Label)
    ensures CountOf([], l) == 0
  {
  }

  lemma CountReordered(labels: seq<seq<Label>>, p: seq<nat>, l: Label)
    requires Permutes(p, |labels|)
    ensures CountOf(Flatten(Reordered(labels, p)), l) == CountOf(Flatten(labels), l)
  {
    hide CountOf, Flatten, Sum;
    CountFlatten(labels, l);
    CountFlatten(Reordered(labels, p), l);
    assert Tally(Reordered(labels, p), l) == Reordered(Tally(labels, l), p);
    SumReordered(Tally(labels, l), p);
  }

  lemma {:induction false} SinglesReordered(labels: seq<seq<Label>>, p: seq<nat>, n: nat)
    requires Permutes(p, |labels|) && n <= 128
    ensures Singles(Flatten(Reordered(labels, p)), n) == Singles(Flatten(labels), n)
  {
    hide CountOf, Flatten;
    if n > 0 {
      SinglesReordered(labels, p, n - 1);
      CountReordered(labels, p, Named((n - 1) as char));
    }
  }

  // Plans

  function Shuffled(plan: Plan, p: seq<nat>): Plan
    requires Permutes(p, |plan.operandLabels|)
  {
    plan.(operandLabels := Reordered(plan.operandLabels, p))
  }

  lemma FrontReordered(inputs: seq<string>, shapes: seq<Shape>, p: seq<nat>)
    requires |inputs| == |shapes| && Permutes(p, |inputs|) && Positive(shapes)
    ensures var there := FrontOf(Reordered(inputs, p), Reordered(shapes, p));
            match FrontOf(inputs, shapes)
            case Err(e) => there == Err(e)
            case Ok(f) =>
              |f.labels| == |inputs| && there == Ok(Front(Reordered(f.labels, p), f.width, f.extents))
  {
    hide Terms, Widest, Extents, Zeroed, AllAxes, Expanded, Width;
    var others, dims := Reordered(inputs, p), Reordered(shapes, p);
    TermsReordered(inputs, p);
    if Terms(inputs).Some? {
      var terms := Terms(inputs).value;
      WidestReordered(terms, shapes, p);
      if Widest(terms, shapes, |terms|).Some? {
        var w := Widest(terms, shapes, |terms|).value;
        var labels := OperandLabels(terms, shapes, w);
        assert OperandLabels(Reordered(terms, p), dims, w) == Reordered(labels, p);
        OperandsLabelled(inputs, terms, shapes, w);
        RecordedReordered(labels, shapes, p);
      }
    }
  }

  /**
   * With positive dimensions, an equation whose input terms are reordered along with the shapes parses to the same
   * plan, its operand labels reordered, or to the same error.
   */
  lemma PlanReordered(equation: string, other: string, inputs: seq<string>, output: Option<string>, shapes: seq<Shape>,
                      p: seq<nat>)
    requires Split(Stripped(equation)) == Some(Sides(inputs, output))
    requires |inputs| == |shapes| && Permutes(p, |inputs|) && Positive(shapes)
    requires Split(Stripped(other)) == Some(Sides(Reordered(inputs, p), output))
    ensures var there := PlanOf(other, Reordered(shapes, p));
            match PlanOf(equation, shapes)
            case Err(e) => there == Err(e)
            case Ok(plan) => |plan.operandLabels| == |inputs| && there == Ok(Shuffled(plan, p))
  {
    hide FrontOf, Singles, Contracted, Pieces, Expanded, Split, Stripped, Distinct;
    FrontReordered(inputs, shapes, p);
    if FrontOf(inputs, shapes).Ok? {
      SinglesReordered(FrontOf(inputs, shapes).value.labels, p, 128);
    }
  }
}
