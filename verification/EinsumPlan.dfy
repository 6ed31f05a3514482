/** Contraction plans: operand labels with right-aligned ellipses, joined extents, and explicit or implicit output. */
module EinsumPlan {
  import opened Wrappers
  import Shapes
  import opened Einsum

  type Shape = Shapes.Shape

  datatype Label = Named(c: char) | Ellipsis(k: nat)

  datatype Plan =
    Plan(operandLabels: seq<seq<Label>>, extents: map<Label, nat>, outputLabels: seq<Label>,
         contractedLabels: seq<Label>)

  datatype EinsumError = OperandCount(expected: nat, actual: nat) | InvalidEinsum | ShapeOverflow

  // Splitting an equation

  predicate IsWhitespace(c: char) {
    '\t' <= c <= '\r' || c == ' ' || c == '\U{85}' || c == '\U{A0}' || c == '\U{1680}' ||
      '\U{2000}' <= c <= '\U{200A}' ||
    c == '\U{2028}' || c == '\U{2029}' || c == '\U{202F}' || c == '\U{205F}' || c == '\U{3000}'
  }

  function Stripped(text: string): string {
    if |text| == 0 then ""
    else (if IsWhitespace(text[0]) then "" else [text[0]]) + Stripped(text[1..])
  }

  /** The first arrow at or after position `i`. */
  function ArrowAt(text: string, i: nat): (r: Option<nat>)
    ensures r.Some? ==> i <= r.value && r.value + 2 <= |text| && text[r.value] == '-' && text[r.value + 1] == '>'
    decreases |text| - i
  {
    if i + 2 > |text| then None
    else if text[i] == '-' && text[i + 1] == '>' then Some(i)
    else ArrowAt(text, i + 1)
  }

  function SplitCommas(text: string): (parts: seq<string>)
    ensures |parts| > 0
  {
    if |text| == 0 then [""]
    else
      var rest := SplitCommas(text[1..]);
      if text[0] == ',' then [""] + rest else [[text[0]] + rest[0]] + rest[1..]
  }

  datatype Sides = Sides(inputs: seq<string>, output: Option<string>)

  /** The input terms and the output side, when there is at most one arrow. */
  function Split(text: string): Option<Sides> {
    match ArrowAt(text, 0)
    case None => Some(Sides(SplitCommas(text), None))
    case Some(i) =>
      if ArrowAt(text, i + 2).Some? then None
      else Some(Sides(SplitCommas(text[..i]), Some(text[i + 2..])))
  }

  // Operand labels

  function Letters(pieces: seq<Piece>): nat {
    if |pieces| == 0 then 0 else (if pieces[0].Letter? then 1 else 0) + Letters(pieces[1..])
  }

  function EllipsisRun(low: nat, high: nat): (r: seq<Label>)
    requires low <= high
    ensures |r| == high - low && forall i :: 0 <= i < |r| ==> r[i] == Ellipsis(low + i)
  {
    seq(high - low, i requires 0 <= i < high - low => Ellipsis(low + i))
  }

  /** Labels of the pieces in place, with the ellipsis standing for the run from `low` to `high`. */
  function Expanded(pieces: seq<Piece>, low: nat, high: nat): seq<Label>
    requires low <= high
  {
    if |pieces| == 0 then []
    else
      (match pieces[0] case Letter(c) => [Named(c)] case Dots => EllipsisRun(low, high)) +
        Expanded(pieces[1..], low, high)
  }

  lemma {:induction false} ExpandedLength(pieces: seq<Piece>, low: nat, high: nat)
    requires Proper(pieces) && low <= high
    ensures |Expanded(pieces, low, high)| == Letters(pieces) + if Dots in pieces then high - low else 0
  {
    if |pieces| > 0 {
      var rest := pieces[1..];
      assert pieces == [pieces[0]] + rest;
      assert forall i :: 0 <= i < |rest| ==> rest[i] == pieces[i + 1];
      ExpandedLength(rest, low, high);
      if pieces[0].Dots? {
        assert Dots !in rest;
      }
    }
  }

  /** How many axes a term's ellipsis covers, if the rank fits the term. */
  function Width(pieces: seq<Piece>, rank: nat): Option<nat> {
    if Dots in pieces then (if rank < Letters(pieces) then None else Some(rank - Letters(pieces)))
    else if rank != Letters(pieces) then None
    else Some(0)
  }

  /** Every term parsed, or None. */
  function Terms(texts: seq<string>): (r: Option<seq<seq<Piece>>>)
    ensures r.Some? ==> |r.value| == |texts| && forall i :: 0 <= i < |texts| ==> Pieces(texts[i]) == Some(r.value[i])
  {
    if |texts| == 0 then Some([])
    else
      var n := |texts| - 1;
      match Terms(texts[..n])
      case None => None
      case Some(ts) => match Pieces(texts[n]) case None => None case Some(p) => Some(ts + [p])
  }

  /** The widest ellipsis among the first `n` terms, if all their ranks fit. */
  function Widest(terms: seq<seq<Piece>>, shapes: seq<Shape>, n: nat): (r: Option<nat>)
    requires n <= |terms| == |shapes|
    ensures r.Some? ==> forall i :: 0 <= i < n ==>
              Width(terms[i], |shapes[i]|).Some? && Width(terms[i], |shapes[i]|).value <= r.value
  {
    if n == 0 then Some(0)
    else
      match Widest(terms, shapes, n - 1)
      case None => None
      case Some(w) =>
        match Width(terms[n - 1], |shapes[n - 1]|)
        case None => None
        case Some(v) => Some(if v > w then v else w)
  }

  /** The labels of every operand, ellipses aligned on the right. */
  function OperandLabels(terms: seq<seq<Piece>>, shapes: seq<Shape>, w: nat): (labels: seq<seq<Label>>)
    requires |terms| == |shapes|
    requires forall i :: 0 <= i < |terms| ==>
               Width(terms[i], |shapes[i]|).Some? && Width(terms[i], |shapes[i]|).value <= w
    ensures |labels| == |terms|
    ensures forall i :: 0 <= i < |terms| ==>
              labels[i] == Expanded(terms[i], w - Width(terms[i], |shapes[i]|).value, w)
  {
    seq(|terms|, i requires 0 <= i < |terms| => Expanded(terms[i], w - Width(terms[i], |shapes[i]|).value, w))
  }

  /** Every operand axis is labelled. */
  ghost predicate Labelled(labels: seq<seq<Label>>, shapes: seq<Shape>) {
    |labels| == |shapes| && forall i :: 0 <= i < |labels| ==> |labels[i]| == |shapes[i]|
  }

  lemma OperandsLabelled(texts: seq<string>, terms: seq<seq<Piece>>, shapes: seq<Shape>, w: nat)
    requires Terms(texts) == Some(terms) && |terms| == |shapes| && Widest(terms, shapes, |terms|) == Some(w)
    ensures Labelled(OperandLabels(terms, shapes, w), shapes)
  {
    hide Widest, Pieces, Expanded, Width;
    forall i | 0 <= i < |terms|
      ensures |OperandLabels(terms, shapes, w)[i]| == |shapes[i]|
    {
      TermLabelled(texts[i], terms[i], |shapes[i]|, w);
    }
  }

  lemma TermLabelled(text: string, pieces: seq<Piece>, rank: nat, w: nat)
    requires Pieces(text) == Some(pieces) && Width(pieces, rank).Some? && Width(pieces, rank).value <= w
    ensures |Expanded(pieces, w - Width(pieces, rank).value, w)| == rank
  {
    hide Pieces, Expanded;
    PiecesSound(text);
    ExpandedLength(pieces, w - Width(pieces, rank).value, w);
  }

  // Extents

  datatype Axis = Axis(name: Label, length: nat)

  function AxesOf(labels: seq<Label>, shape: Shape): (axes: seq<Axis>)
    requires |labels| == |shape|
    ensures |axes| == |labels| && forall i :: 0 <= i < |labels| ==> axes[i] == Axis(labels[i], shape[i])
  {
    seq(|labels|, i requires 0 <= i < |labels| => Axis(labels[i], shape[i]))
  }

  /** The labelled axes of the first `n` operands, in order. */
  function AllAxes(labels: seq<seq<Label>>, shapes: seq<Shape>, n: nat): seq<Axis>
    requires Labelled(labels, shapes) && n <= |labels|
  {
    if n == 0 then [] else AllAxes(labels, shapes, n - 1) + AxesOf(labels[n - 1], shapes[n - 1])
  }

  /** Repeated labels of one operand have one length. */
  ghost predicate Consistent(axes: seq<Axis>) {
    forall i, j :: 0 <= i < j < |axes| && axes[i].name == axes[j].name ==> axes[i].length == axes[j].length
  }

  /** Joining axes in order into one extent per label. */
  function Joins(axes: seq<Axis>): Option<map<Label, nat>> {
    if |axes| == 0 then Some(map[])
    else
      var n := |axes| - 1;
      match Joins(axes[..n])
      case None => None
      case Some(m) => JoinAxis(m, axes[n])
  }

  function JoinAxis(m: map<Label, nat>, a: Axis): Option<map<Label, nat>> {
    if a.name !in m then Some(m[a.name := a.length])
    else
      match JoinStep(m[a.name], a.length)
      case None => None
      case Some(e) => Some(m[a.name := e])
  }

  /** The lengths of one label, in order. */
  function LengthsOf(axes: seq<Axis>, l: Label): (lengths: seq<nat>)
    ensures |lengths| > 0 <==> exists i :: 0 <= i < |axes| && axes[i].name == l
    ensures 0 in lengths <==> Axis(l, 0) in axes
  {
    if |axes| == 0 then []
    else
      var n := |axes| - 1;
      assert axes == axes[..n] + [axes[n]];
      LengthsOf(axes[..n], l) + if axes[n].name == l then [axes[n].length] else []
  }

  lemma LengthsNext(axes: seq<Axis>, l: Label)
    requires |axes| > 0
    ensures var n := |axes| - 1;
            LengthsOf(axes, l) == LengthsOf(axes[..n], l) + if axes[n].name == l then [axes[n].length] else []
  {
  }

  /** The joined map holds, label by label, the fold of that label's lengths. */
  ghost predicate ByLabel(axes: seq<Axis>, joins: Option<map<Label, nat>>) {
    match joins
    case None => exists l :: Stuck(axes, l)
    case Some(m) => forall l :: Agrees(axes, m, l)
  }

  ghost predicate Stuck(axes: seq<Axis>, l: Label) {
    |LengthsOf(axes, l)| > 0 && Joined(LengthsOf(axes, l)).None?
  }

  ghost predicate Agrees(axes: seq<Axis>, m: map<Label, nat>, l: Label) {
    if |LengthsOf(axes, l)| == 0 then l !in m else l in m && Joined(LengthsOf(axes, l)) == Some(m[l])
  }

  lemma {:induction false} JoinsByLabel(axes: seq<Axis>)
    ensures ByLabel(axes, Joins(axes))
  {
    hide LengthsOf, Joined;
    if |axes| > 0 {
      var n := |axes| - 1;
      var less, a := axes[..n], axes[n];
      JoinsByLabel(less);
      if Joins(less).None? {
        var l :| Stuck(less, l);
        LengthsNext(axes, l);
        JoinedPush(LengthsOf(less, l), a.length);
        assert LengthsOf(less, l) + [] == LengthsOf(less, l);
        assert Stuck(axes, l);
      } else {
        JoinsAgree(less, a, Joins(less).value, axes);
      }
    } else {
      NoLengths();
    }
  }

  lemma NoLengths()
    ensures ByLabel([], Joins([]))
  {
  }

  lemma JoinsAgree(less: seq<Axis>, a: Axis, m: map<Label, nat>, axes: seq<Axis>)
    requires axes == less + [a] && forall l :: Agrees(less, m, l)
    ensures ByLabel(axes, JoinAxis(m, a))
  {
    hide LengthsOf, Joined;
    assert axes[..|axes| - 1] == less;
    LengthsNext(axes, a.name);
    JoinedPush(LengthsOf(less, a.name), a.length);
    assert Agrees(less, m, a.name);
    match JoinAxis(m, a)
    case None => assert Stuck(axes, a.name);
    case Some(u) =>
      forall l
        ensures Agrees(axes, u, l)
      {
        LengthsNext(axes, l);
        assert Agrees(less, m, l);
        assert l != a.name ==> LengthsOf(axes, l) == LengthsOf(less, l);
      }
  }

  lemma JoinedPush(lengths: seq<nat>, x: nat)
    ensures |lengths| == 0 ==> Joined(lengths + [x]) == Some(x)
    ensures |lengths| > 0 ==>
              Joined(lengths + [x]) == match Joined(lengths) case None => None case Some(e) => JoinStep(e, x)
  {
    assert (lengths + [x])[..|lengths|] == lengths;
  }

  /** The loop over operands. */
  method JoinExtents(labels: seq<seq<Label>>, shapes: seq<Shape>) returns (r: Option<map<Label, nat>>)
    requires Labelled(labels, shapes)
    ensures r == Extents(labels, shapes)
  {
    hide Joins, Consistent, AllAxes;
    var extents: map<Label, nat> := map[];
    NoAxes(labels, shapes);
    for i := 0 to |labels|
      invariant forall j: nat :: j < i ==> Consistent(AxesOf(labels[j], shapes[j]))
      invariant Joins(AllAxes(labels, shapes, i)) == Some(extents)
    {
      var joined := JoinOperand(extents, AxesOf(labels[i], shapes[i]), AllAxes(labels, shapes, i));
      NextAxes(labels, shapes, i);
      if joined.None? {
        if Consistent(AxesOf(labels[i], shapes[i])) {
          AllAxesPrefix(labels, shapes, i + 1, |labels|);
          JoinsStuck(AllAxes(labels, shapes, i + 1), AllAxes(labels, shapes, |labels|));
        }
        return None;
      }
      extents := joined.value;
    }
    return Some(extents);
  }

  /** Why extents exist: repeated labels agree within each operand, and every label's lengths join. */
  ghost function Extents(labels: seq<seq<Label>>, shapes: seq<Shape>): Option<map<Label, nat>>
    requires Labelled(labels, shapes)
  {
    if forall i: nat :: i < |labels| ==> Consistent(AxesOf(labels[i], shapes[i]))
    then Joins(AllAxes(labels, shapes, |labels|)) else None
  }

  lemma NoAxes(labels: seq<seq<Label>>, shapes: seq<Shape>)
    requires Labelled(labels, shapes)
    ensures Joins(AllAxes(labels, shapes, 0)) == Some(map[])
  {
  }

  lemma NextAxes(labels: seq<seq<Label>>, shapes: seq<Shape>, i: nat)
    requires Labelled(labels, shapes) && i < |labels|
    ensures AllAxes(labels, shapes, i + 1) == AllAxes(labels, shapes, i) + AxesOf(labels[i], shapes[i])
  {
  }

  /** The loop over one operand's axes; a label repeated with another length is refused. */
  method JoinOperand(start: map<Label, nat>, axes: seq<Axis>, ghost before: seq<Axis>)
    returns (r: Option<map<Label, nat>>)
    requires Joins(before) == Some(start)
    ensures r == if Consistent(axes) then Joins(before + axes) else None
  {
    hide Joins, JoinAxis;
    var extents := start;
    var local: map<Label, nat> := map[];
    assert before + axes[..0] == before;
    for j := 0 to |axes|
      invariant Consistent(axes[..j])
      invariant forall l :: l in local <==> exists k :: 0 <= k < j && axes[k].name == l
      invariant forall k :: 0 <= k < j ==> local[axes[k].name] == axes[k].length
      invariant Joins(before + axes[..j]) == Some(extents)
    {
      var a := axes[j];
      if a.name in local && local[a.name] != a.length {
        return None;
      }
      local := local[a.name := a.length];
      JoinsNext(before, axes, j);
      var joined := JoinAxis(extents, a);
      if joined.None? {
        assert before + axes[..j + 1] <= before + axes;
        JoinsStuck(before + axes[..j + 1], before + axes);
        return None;
      }
      extents := joined.value;
    }
    assert axes[..|axes|] == axes;
    return Some(extents);
  }

  lemma JoinsNext(before: seq<Axis>, axes: seq<Axis>, j: nat)
    requires j < |axes|
    ensures Joins(before + axes[..j + 1]) ==
            match Joins(before + axes[..j]) case None => None case Some(m) => JoinAxis(m, axes[j])
  {
    assert before + axes[..j + 1] == (before + axes[..j]) + [axes[j]];
    assert (before + axes[..j + 1])[..|before| + j] == before + axes[..j];
  }

  lemma {:induction false} JoinsStuck(part: seq<Axis>, all: seq<Axis>)
    requires part <= all && Joins(part).None?
    ensures Joins(all).None?
  {
    if |part| == |all| {
      assert part == all;
    } else {
      JoinsStuck(part, all[..|all| - 1]);
    }
  }

  lemma {:induction false} AllAxesPrefix(labels: seq<seq<Label>>, shapes: seq<Shape>, m: nat, n: nat)
    requires Labelled(labels, shapes) && m <= n <= |labels|
    ensures AllAxes(labels, shapes, m) <= AllAxes(labels, shapes, n)
    decreases n
  {
    if m < n {
      AllAxesPrefix(labels, shapes, m, n - 1);
    }
  }

  /** Empty lengths override the joined extent. */
  function Zeroed(m: map<Label, nat>, axes: seq<Axis>): (r: map<Label, nat>)
    ensures r.Keys == m.Keys
  {
    map l | l in m :: if Axis(l, 0) in axes then 0 else m[l]
  }

  /** The recorded extent of a label is the join of its own lengths, in operand order. */
  lemma ExtentByLabel(axes: seq<Axis>, l: Label)
    requires Joins(axes).Some?
    ensures var m := Zeroed(Joins(axes).value, axes);
            (l in m <==> |LengthsOf(axes, l)| > 0) && (l in m ==> ExtentOf(LengthsOf(axes, l)) == Some(m[l]))
  {
    hide Joins, Joined;
    JoinsByLabel(axes);
    assert Agrees(axes, Joins(axes).value, l);
  }

  lemma StuckStops(axes: seq<Axis>, l: Label)
    requires Stuck(axes, l)
    ensures Joins(axes).None?
  {
    hide Joins, Joined, LengthsOf;
    JoinsByLabel(axes);
    if Joins(axes).Some? {
      assert Agrees(axes, Joins(axes).value, l);
    }
  }

  /**
   * For positive lengths, extents depend only on which labelled lengths occur, not on the order of operands or axes.
   */
  lemma ExtentsOrderFree(a: seq<Axis>, b: seq<Axis>)
    requires (forall x :: x in a <==> x in b) && forall x :: x in a ==> x.length > 0
    ensures Joins(a).Some? <==> Joins(b).Some?
    ensures Joins(a).Some? ==> Zeroed(Joins(a).value, a) == Zeroed(Joins(b).value, b)
  {
    hide Joins, Joined, LengthsOf;
    JoinsByLabel(a);
    JoinsByLabel(b);
    forall l
      ensures SameMembers(LengthsOf(a, l), LengthsOf(b, l)) && 0 !in LengthsOf(a, l) && 0 !in LengthsOf(b, l)
      ensures |LengthsOf(a, l)| > 0 ==> |LengthsOf(b, l)| > 0 && Joined(LengthsOf(a, l)) == Joined(LengthsOf(b, l))
      ensures |LengthsOf(b, l)| > 0 ==> |LengthsOf(a, l)| > 0
    {
      SameLengths(a, b, l);
    }
    if Joins(a).None? {
      var l :| Stuck(a, l);
      StuckStops(b, l);
    } else if Joins(b).None? {
      var l :| Stuck(b, l);
      StuckStops(a, l);
    } else {
      var m, n := Joins(a).value, Joins(b).value;
      forall l
        ensures l in m <==> l in n
        ensures l in m ==> m[l] == n[l]
      {
        assert Agrees(a, m, l) && Agrees(b, n, l);
      }
      assert m == n;
    }
  }

  lemma {:induction false} LengthIn(axes: seq<Axis>, l: Label, x: nat)
    ensures x in LengthsOf(axes, l) <==> Axis(l, x) in axes
  {
    if |axes| > 0 {
      var n := |axes| - 1;
      LengthIn(axes[..n], l, x);
      assert axes == axes[..n] + [axes[n]];
    }
  }

  lemma SameLengths(a: seq<Axis>, b: seq<Axis>, l: Label)
    requires (forall x :: x in a <==> x in b) && forall x :: x in a ==> x.length > 0
    ensures SameMembers(LengthsOf(a, l), LengthsOf(b, l)) && 0 !in LengthsOf(a, l) && 0 !in LengthsOf(b, l)
    ensures |LengthsOf(a, l)| > 0 <==> |LengthsOf(b, l)| > 0
    ensures |LengthsOf(a, l)| > 0 ==> Joined(LengthsOf(a, l)) == Joined(LengthsOf(b, l))
  {
    hide LengthsOf, Joined;
    forall x
      ensures x in LengthsOf(a, l) <==> x in LengthsOf(b, l)
    {
      LengthIn(a, l, x);
      LengthIn(b, l, x);
    }
    assert |LengthsOf(b, l)| > 0 ==> LengthsOf(b, l)[0] in LengthsOf(b, l);
    assert |LengthsOf(a, l)| > 0 ==> LengthsOf(a, l)[0] in LengthsOf(a, l);
    if |LengthsOf(a, l)| > 0 {
      OrderIrrelevant(LengthsOf(a, l), LengthsOf(b, l));
    }
  }

  // Outputs

  function Flatten(labels: seq<seq<Label>>): seq<Label> {
    if |labels| == 0 then [] else Flatten(labels[..|labels| - 1]) + labels[|labels| - 1]
  }

  function CountOf(all: seq<Label>, l: Label): nat {
    if |all| == 0 then 0 else CountOf(all[..|all| - 1], l) + if all[|all| - 1] == l then 1 else 0
  }

  /** The letters below code `n` that label exactly one axis, ascending. */
  function Singles(all: seq<Label>, n: nat): seq<Label>
    requires n <= 128
  {
    if n == 0 then []
    else Singles(all, n - 1) + if CountOf(all, Named((n - 1) as char)) == 1 then [Named((n - 1) as char)] else []
  }

  function ImplicitLabels(labels: seq<seq<Label>>, w: nat): seq<Label> {
    EllipsisRun(0, w) + Singles(Flatten(labels), 128)
  }

  /** Counting letters and keeping the singletons. */
  method ImplicitOutput(labels: seq<seq<Label>>, w: nat) returns (output: seq<Label>)
    ensures output == ImplicitLabels(labels, w)
  {
    var counts: map<char, nat> := map[];
    for i := 0 to |labels|
      invariant Counts(Flatten(labels[..i]), counts)
    {
      assert labels[..i + 1][..i] == labels[..i];
      assert labels[i][..0] == [];
      assert Flatten(labels[..i]) + [] == Flatten(labels[..i]);
      for j := 0 to |labels[i]|
        invariant Counts(Flatten(labels[..i]) + labels[i][..j], counts)
      {
        CountsNext(Flatten(labels[..i]) + labels[i][..j], labels[i][j], counts);
        assert Flatten(labels[..i]) + labels[i][..j + 1] == Flatten(labels[..i]) + labels[i][..j] + [labels[i][j]];
        match labels[i][j] {
          case Named(c) => counts := counts[c := (if c in counts then counts[c] else 0) + 1];
          case Ellipsis(_) =>
        }
      }
      assert labels[i][..|labels[i]|] == labels[i];
    }
    assert labels[..|labels|] == labels;
    output := EllipsisRun(0, w);
    for n := 0 to 128
      invariant output == EllipsisRun(0, w) + Singles(Flatten(labels), n)
    {
      var c := n as char;
      if c in counts && counts[c] == 1 {
        output := output + [Named(c)];
      }
    }
  }

  ghost predicate Counts(all: seq<Label>, counts: map<char, nat>) {
    forall c :: CountOf(all, Named(c)) == if c in counts then counts[c] else 0
  }

  lemma CountsNext(all: seq<Label>, l: Label, counts: map<char, nat>)
    requires Counts(all, counts)
    ensures forall c :: CountOf(all + [l], Named(c)) == CountOf(all, Named(c)) + if l == Named(c) then 1 else 0
  {
    assert (all + [l])[..|all|] == all;
  }

  predicate Distinct(labels: seq<Label>) {
    forall i, j :: 0 <= i < j < |labels| ==> labels[i] != labels[j]
  }

  /** The labels with code below `n` that are summed over, ascending. */
  function RestNamed(m: map<Label, nat>, output: seq<Label>, n: nat): seq<Label>
    requires n <= 128
  {
    if n == 0 then []
    else
      var l := Named((n - 1) as char);
      RestNamed(m, output, n - 1) + if l in m && l !in output then [l] else []
  }

  function RestEllipsis(m: map<Label, nat>, output: seq<Label>, n: nat): seq<Label> {
    if n == 0 then []
    else
      var l := Ellipsis(n - 1);
      RestEllipsis(m, output, n - 1) + if l in m && l !in output then [l] else []
  }

  /** The labels not in the output: letters first, then ellipsis axes, ascending. */
  function Contracted(m: map<Label, nat>, output: seq<Label>, w: nat): seq<Label> {
    RestNamed(m, output, 128) + RestEllipsis(m, output, w)
  }

  function Dims(m: map<Label, nat>, labels: seq<Label>): (s: Shape)
    requires forall l :: l in labels ==> l in m
    ensures |s| == |labels| && forall i :: 0 <= i < |labels| ==> s[i] == m[labels[i]]
  {
    seq(|labels|, i requires 0 <= i < |labels| => m[labels[i]])
  }

  lemma {:induction false} RestNamedIs(m: map<Label, nat>, output: seq<Label>, n: nat)
    requires n <= 128
    ensures var r := RestNamed(m, output, n);
            Distinct(r) && forall l :: l in r <==> l.Named? && l.c as nat < n && l in m && l !in output
  {
    if n > 0 {
      RestNamedIs(m, output, n - 1);
    }
  }

  lemma {:induction false} RestEllipsisIs(m: map<Label, nat>, output: seq<Label>, n: nat)
    ensures var r := RestEllipsis(m, output, n);
            Distinct(r) && forall l :: l in r <==> l.Ellipsis? && l.k < n && l in m && l !in output
  {
    if n > 0 {
      RestEllipsisIs(m, output, n - 1);
    }
  }

  /** Labels that fit the fixed enumeration of the contracted list. */
  ghost predicate Enumerable(m: map<Label, nat>, w: nat) {
    forall l :: l in m ==> match l case Named(c) => c as nat < 128 case Ellipsis(k) => k < w
  }

  lemma ContractedIs(m: map<Label, nat>, output: seq<Label>, w: nat)
    requires Enumerable(m, w)
    ensures var r := Contracted(m, output, w); Distinct(r) && forall l :: l in r <==> l in m && l !in output
  {
    hide RestNamed, RestEllipsis;
    RestNamedIs(m, output, 128);
    RestEllipsisIs(m, output, w);
    var a, b := RestNamed(m, output, 128), RestEllipsis(m, output, w);
    var r := a + b;
    forall i, j | 0 <= i < j < |r|
      ensures r[i] != r[j]
    {
      if i < |a| {
        assert r[i] == a[i] && a[i] in a;
      }
      if j >= |a| {
        assert r[j] == b[j - |a|] && b[j - |a|] in b;
      }
    }
  }

  // The plan of an equation

  /** Everything settled before the output side is looked at. */
  datatype Front = Front(labels: seq<seq<Label>>, width: nat, extents: map<Label, nat>)

  ghost function FrontOf(inputs: seq<string>, shapes: seq<Shape>): Result<Front, EinsumError> {
    if |inputs| != |shapes| then Err(OperandCount(|inputs|, |shapes|))
    else
      match Terms(inputs)
      case None => Err(InvalidEinsum)
      case Some(terms) =>
        match Widest(terms, shapes, |terms|)
        case None => Err(InvalidEinsum)
        case Some(w) =>
          var labels := OperandLabels(terms, shapes, w);
          OperandsLabelled(inputs, terms, shapes, w);
          match Extents(labels, shapes)
          case None => Err(InvalidEinsum)
          case Some(m) => Ok(Front(labels, w, Zeroed(m, AllAxes(labels, shapes, |labels|))))
  }

  /** The output labels asked for, or None when the output side is not a subscript. */
  function OutputOf(f: Front, output: Option<string>): Option<seq<Label>> {
    match output
    case None => Some(ImplicitLabels(f.labels, f.width))
    case Some(text) =>
      match Pieces(text)
      case None => None
      case Some(pieces) => Some(Expanded(pieces, 0, f.width))
  }

  /** The plan for chosen output labels, which must be distinct labels of the operands. */
  function Finish(f: Front, output: seq<Label>): Result<Plan, EinsumError> {
    if !Distinct(output) || exists l :: l in output && l !in f.extents then Err(InvalidEinsum)
    else
      var rest := Contracted(f.extents, output, f.width);
      RestInside(f.extents, output, f.width);
      if Shapes.CheckedNumel(Dims(f.extents, output)).None? || Shapes.CheckedNumel(Dims(f.extents, rest)).None?
      then Err(ShapeOverflow)
      else Ok(Plan(f.labels, f.extents, output, rest))
  }

  lemma {:induction false} RestInside(m: map<Label, nat>, output: seq<Label>, w: nat)
    ensures forall l :: l in Contracted(m, output, w) ==> l in m
  {
    RestNamedIs(m, output, 128);
    RestEllipsisIs(m, output, w);
  }

  /** What parsing an equation against operand shapes gives. */
  ghost function PlanOf(equation: string, shapes: seq<Shape>): Result<Plan, EinsumError> {
    match Split(Stripped(equation))
    case None => Err(InvalidEinsum)
    case Some(sides) =>
      match FrontOf(sides.inputs, shapes)
      case Err(e) => Err(e)
      case Ok(f) =>
        match OutputOf(f, sides.output)
        case None => Err(InvalidEinsum)
        case Some(output) => Finish(f, output)
  }

  method Strip(equation: string) returns (text: string)
    ensures text == Stripped(equation)
  {
    text := "";
    assert equation[0..] == equation;
    for i := 0 to |equation|
      invariant Stripped(equation) == text + Stripped(equation[i..])
    {
      assert equation[i..][1..] == equation[i + 1..];
      if !IsWhitespace(equation[i]) {
        text := text + [equation[i]];
      }
    }
  }

  method ParseTerms(inputs: seq<string>) returns (r: Option<seq<seq<Piece>>>)
    ensures r == Terms(inputs)
  {
    hide Pieces;
    var terms: seq<seq<Piece>> := [];
    for i := 0 to |inputs|
      invariant Terms(inputs[..i]) == Some(terms)
    {
      assert inputs[..i + 1][..i] == inputs[..i];
      var parsed := ParseSubscript(inputs[i]);
      if parsed.None? {
        TermsStuck(inputs, i + 1);
        return None;
      }
      terms := terms + [parsed.value];
    }
    assert inputs[..|inputs|] == inputs;
    return Some(terms);
  }

  lemma {:induction false} TermsStuck(inputs: seq<string>, n: nat)
    requires n <= |inputs| && Terms(inputs[..n]).None?
    ensures Terms(inputs).None?
  {
    if n == |inputs| {
      assert inputs[..n] == inputs;
    } else {
      var last := |inputs| - 1;
      assert inputs[..last][..n] == inputs[..n];
      TermsStuck(inputs[..last], n);
    }
  }

  /** The widest ellipsis, refusing an operand whose rank does not fit its term. */
  method MeasureWidth(terms: seq<seq<Piece>>, shapes: seq<Shape>) returns (w: Option<nat>)
    requires |terms| == |shapes|
    ensures w == Widest(terms, shapes, |terms|)
  {
    var width := 0;
    for i := 0 to |terms|
      invariant Widest(terms, shapes, i) == Some(width)
    {
      var v := Width(terms[i], |shapes[i]|);
      if v.None? {
        WidestStuck(terms, shapes, i + 1, |terms|);
        return None;
      }
      width := if v.value > width then v.value else width;
    }
    return Some(width);
  }

  lemma {:induction false} WidestStuck(terms: seq<seq<Piece>>, shapes: seq<Shape>, m: nat, n: nat)
    requires m <= n <= |terms| == |shapes| && Widest(terms, shapes, m).None?
    ensures Widest(terms, shapes, n).None?
    decreases n
  {
    if m < n {
      WidestStuck(terms, shapes, m, n - 1);
    }
  }

  /** Everything up to the joined extents. */
  method ParseFront(inputs: seq<string>, shapes: seq<Shape>) returns (r: Result<Front, EinsumError>)
    ensures r == FrontOf(inputs, shapes)
  {
    hide Extents, Widest, Terms;
    if |inputs| != |shapes| {
      return Err(OperandCount(|inputs|, |shapes|));
    }
    var terms := ParseTerms(inputs);
    if terms.None? {
      return Err(InvalidEinsum);
    }
    var width := MeasureWidth(terms.value, shapes);
    if width.None? {
      return Err(InvalidEinsum);
    }
    var labels := OperandLabels(terms.value, shapes, width.value);
    OperandsLabelled(inputs, terms.value, shapes, width.value);
    var extents := JoinExtents(labels, shapes);
    if extents.None? {
      return Err(InvalidEinsum);
    }
    return Ok(Front(labels, width.value, Zeroed(extents.value, AllAxes(labels, shapes, |labels|))));
  }

  /** Parsing and normalising an equation. */
  method Parse(equation: string, shapes: seq<Shape>) returns (r: Result<Plan, EinsumError>)
    ensures r == PlanOf(equation, shapes)
  {
    hide FrontOf, Finish, Split, ImplicitLabels, Expanded, Pieces;
    var text := Strip(equation);
    var sides := Split(text);
    if sides.None? {
      return Err(InvalidEinsum);
    }
    var front := ParseFront(sides.value.inputs, shapes);
    if front.Err? {
      return Err(front.error);
    }
    var f := front.value;
    var output: seq<Label>;
    match sides.value.output {
      case None => output := ImplicitOutput(f.labels, f.width);
      case Some(out) =>
        var pieces := ParseSubscript(out);
        if pieces.None? {
          return Err(InvalidEinsum);
        }
        output := Expanded(pieces.value, 0, f.width);
    }
    r := Finish(f, output);
  }

  // What an accepted plan guarantees

  ghost predicate Known(labels: seq<Label>, w: nat) {
    forall l :: l in labels ==> match l case Named(c) => IsLetter(c) case Ellipsis(k) => k < w
  }

  lemma {:induction false} ExpandedKnown(pieces: seq<Piece>, low: nat, high: nat)
    requires Proper(pieces) && low <= high
    ensures Known(Expanded(pieces, low, high), high)
  {
    if |pieces| > 0 {
      var rest := pieces[1..];
      assert pieces == [pieces[0]] + rest;
      assert forall i :: 0 <= i < |rest| ==> rest[i] == pieces[i + 1];
      assert pieces[0].Letter? ==> IsLetter(pieces[0].c);
      ExpandedKnown(rest, low, high);
    }
  }

  ghost predicate HasName(axes: seq<Axis>, l: Label) {
    exists i :: 0 <= i < |axes| && axes[i].name == l
  }

  lemma {:induction false} AxesNamed(labels: seq<seq<Label>>, shapes: seq<Shape>, n: nat, l: Label)
    requires Labelled(labels, shapes) && n <= |labels|
    ensures HasName(AllAxes(labels, shapes, n), l) <==> exists i :: 0 <= i < n && l in labels[i]
  {
    if n > 0 {
      AxesNamed(labels, shapes, n - 1, l);
      var less, more := AllAxes(labels, shapes, n - 1), AxesOf(labels[n - 1], shapes[n - 1]);
      NameConcat(less, more, l);
      assert HasName(more, l) <==> l in labels[n - 1] by {
        NameOf(labels[n - 1], shapes[n - 1], l);
      }
    }
  }

  lemma NameOf(labels: seq<Label>, shape: Shape, l: Label)
    requires |labels| == |shape|
    ensures HasName(AxesOf(labels, shape), l) <==> l in labels
  {
    if l in labels {
      var i :| 0 <= i < |labels| && labels[i] == l;
      assert AxesOf(labels, shape)[i].name == l;
    }
  }

  lemma NameConcat(a: seq<Axis>, b: seq<Axis>, l: Label)
    ensures HasName(a + b, l) <==> HasName(a, l) || HasName(b, l)
  {
    if HasName(a, l) {
      var i :| 0 <= i < |a| && a[i].name == l;
      assert (a + b)[i].name == l;
    }
    if HasName(b, l) {
      var i :| 0 <= i < |b| && b[i].name == l;
      assert (a + b)[|a| + i].name == l;
    }
  }

  /** The front of a plan labels every axis, and records an extent for exactly the labels of the operands. */
  lemma FrontFacts(inputs: seq<string>, shapes: seq<Shape>)
    requires FrontOf(inputs, shapes).Ok?
    ensures var f := FrontOf(inputs, shapes).value;
            Labelled(f.labels, shapes) &&
            (forall i :: 0 <= i < |f.labels| ==> Known(f.labels[i], f.width)) &&
            (forall l :: l in f.extents <==> exists i :: 0 <= i < |f.labels| && l in f.labels[i]) &&
            (forall l :: l in f.extents ==>
               |LengthsOf(AllAxes(f.labels, shapes, |f.labels|), l)| > 0 &&
               ExtentOf(LengthsOf(AllAxes(f.labels, shapes, |f.labels|), l)) == Some(f.extents[l]))
  {
    hide Widest, Joins, AllAxes, LengthsOf, Expanded, Pieces, Width;
    var terms := Terms(inputs).value;
    var w := Widest(terms, shapes, |terms|).value;
    var f := FrontOf(inputs, shapes).value;
    OperandsLabelled(inputs, terms, shapes, w);
    forall i | 0 <= i < |f.labels|
      ensures Known(f.labels[i], w)
    {
      PiecesSound(inputs[i]);
      ExpandedKnown(terms[i], w - Width(terms[i], |shapes[i]|).value, w);
    }
    forall l
      ensures l in f.extents <==> exists i :: 0 <= i < |f.labels| && l in f.labels[i]
      ensures l in f.extents ==>
                |LengthsOf(AllAxes(f.labels, shapes, |f.labels|), l)| > 0 &&
                ExtentOf(LengthsOf(AllAxes(f.labels, shapes, |f.labels|), l)) == Some(f.extents[l])
    {
      ExtentByLabel(AllAxes(f.labels, shapes, |f.labels|), l);
      AxesNamed(f.labels, shapes, |f.labels|, l);
      assert |LengthsOf(AllAxes(f.labels, shapes, |f.labels|), l)| > 0 <==>
               HasName(AllAxes(f.labels, shapes, |f.labels|), l);
    }
  }

  /**
   * Every accepted plan labels each operand axis and splits all labels into output and contracted, without repetition.
   */
  lemma PlanPartitionsLabels(equation: string, shapes: seq<Shape>, plan: Plan)
    requires PlanOf(equation, shapes) == Ok(plan)
    ensures Labelled(plan.operandLabels, shapes)
    ensures forall l :: l in plan.extents <==> exists i :: 0 <= i < |plan.operandLabels| && l in plan.operandLabels[i]
    ensures Distinct(plan.outputLabels) && Distinct(plan.contractedLabels)
    ensures forall l :: l in plan.extents <==> l in plan.outputLabels || l in plan.contractedLabels
    ensures forall l :: !(l in plan.outputLabels && l in plan.contractedLabels)
    ensures forall l :: l in plan.extents ==>
              |LengthsOf(AllAxes(plan.operandLabels, shapes, |plan.operandLabels|), l)| > 0 &&
              ExtentOf(LengthsOf(AllAxes(plan.operandLabels, shapes, |plan.operandLabels|), l)) == Some(plan.extents[l])
  {
    hide FrontOf, OutputOf, Contracted, AllAxes, LengthsOf;
    var sides := Split(Stripped(equation)).value;
    var f := FrontOf(sides.inputs, shapes).value;
    FrontFacts(sides.inputs, shapes);
    var output := OutputOf(f, sides.output).value;
    assert Enumerable(f.extents, f.width);
    ContractedIs(f.extents, output, f.width);
  }

  // An equation without an arrow means its explicit form

  function Spelled(labels: seq<Label>): string {
    if |labels| == 0 then ""
    else (match labels[0] case Named(c) => [c] case Ellipsis(_) => "") + Spelled(labels[1..])
  }

  function NamedPieces(labels: seq<Label>): seq<Piece> {
    if |labels| == 0 then []
    else (match labels[0] case Named(c) => [Letter(c)] case Ellipsis(_) => []) + NamedPieces(labels[1..])
  }

  /** The explicit output side of a plan whose output is implicit. */
  function ExplicitTail(labels: seq<Label>): string {
    "->..." + Spelled(labels)
  }

  ghost predicate AllNamed(labels: seq<Label>) {
    forall i :: 0 <= i < |labels| ==> labels[i].Named? && IsLetter(labels[i].c)
  }

  lemma {:induction false} NamedRendered(labels: seq<Label>)
    requires AllNamed(labels)
    ensures Render(NamedPieces(labels)) == Spelled(labels)
    ensures forall i :: 0 <= i < |Spelled(labels)| ==> IsLetter(Spelled(labels)[i])
  {
    if |labels| > 0 {
      assert labels[0].Named?;
      NamedRendered(labels[1..]);
      assert NamedPieces(labels)[1..] == NamedPieces(labels[1..]);
    }
  }

  lemma {:induction false} NamedExpanded(labels: seq<Label>, w: nat)
    requires AllNamed(labels)
    ensures forall i :: 0 <= i < |NamedPieces(labels)| ==>
              NamedPieces(labels)[i].Letter? && IsLetter(NamedPieces(labels)[i].c)
    ensures Expanded(NamedPieces(labels), 0, w) == labels
  {
    if |labels| > 0 {
      assert labels[0].Named?;
      NamedExpanded(labels[1..], w);
      assert NamedPieces(labels)[1..] == NamedPieces(labels[1..]);
    }
  }

  lemma {:induction false} SpelledSkips(k: nat, labels: seq<Label>)
    ensures Spelled(EllipsisRun(0, k) + labels) == Spelled(labels)
  {
    SpelledSkipsFrom(0, k, labels);
  }

  lemma {:induction false} SpelledSkipsFrom(low: nat, high: nat, labels: seq<Label>)
    requires low <= high
    ensures Spelled(EllipsisRun(low, high) + labels) == Spelled(labels)
    decreases high - low
  {
    if low == high {
      assert EllipsisRun(low, high) + labels == labels;
    } else {
      SpelledSkipsFrom(low + 1, high, labels);
      assert (EllipsisRun(low, high) + labels)[1..] == EllipsisRun(low + 1, high) + labels;
    }
  }

  lemma {:induction false} StrippedConcat(a: string, b: string)
    ensures Stripped(a + b) == Stripped(a) + Stripped(b)
  {
    if |a| == 0 {
      assert a + b == b;
    } else {
      assert (a + b)[1..] == a[1..] + b;
      StrippedConcat(a[1..], b);
    }
  }

  lemma {:induction false} NothingToStrip(a: string)
    requires forall i :: 0 <= i < |a| ==> !IsWhitespace(a[i])
    ensures Stripped(a) == a
  {
    if |a| > 0 {
      NothingToStrip(a[1..]);
    }
  }

  /** The first arrow of an arrowless text followed by an arrow. */
  lemma {:induction false} ArrowAppended(a: string, b: string, i: nat)
    requires i <= |a| && ArrowAt(a, i).None? && |b| >= 2 && b[0] == '-' && b[1] == '>'
    ensures ArrowAt(a + b, i) == Some(|a|)
    decreases |a| - i
  {
    var text := a + b;
    if i < |a| {
      if i + 2 <= |a| {
        assert text[i] == a[i] && text[i + 1] == a[i + 1];
      } else {
        assert text[i + 1] == b[0];
      }
      ArrowAppended(a, b, i + 1);
    } else {
      assert text[i] == b[0] && text[i + 1] == b[1];
    }
  }

  lemma {:induction false} NoArrow(text: string, i: nat)
    requires forall j :: i <= j < |text| ==> text[j] != '-'
    ensures ArrowAt(text, i).None?
    decreases |text| - i
  {
    if i + 2 <= |text| {
      NoArrow(text, i + 1);
    }
  }

  /** The appended tail is read back as one ellipsis and the letters after it. */
  lemma TailSplits(text: string, letters: string)
    requires ArrowAt(text, 0).None? && forall i :: 0 <= i < |letters| ==> IsLetter(letters[i])
    ensures Split(text + ("->..." + letters)) == Some(Sides(SplitCommas(text), Some("..." + letters)))
  {
    var tail := "->..." + letters;
    var all := text + tail;
    ArrowAppended(text, tail, 0);
    assert all[..|text|] == text && all[|text| + 2..] == "..." + letters;
    forall j | |text| + 2 <= j < |all|
      ensures all[j] != '-'
    {
      assert all[j] == ("..." + letters)[j - |text| - 2];
    }
    NoArrow(all, |text| + 2);
  }

  lemma TailPieces(labels: seq<Label>, w: nat)
    requires AllNamed(labels)
    ensures Pieces("..." + Spelled(labels)).Some?
    ensures Expanded(Pieces("..." + Spelled(labels)).value, 0, w) == EllipsisRun(0, w) + labels
  {
    hide Pieces;
    NamedRendered(labels);
    NamedExpanded(labels, w);
    var named := NamedPieces(labels);
    var pieces := [Dots] + named;
    assert pieces[1..] == named;
    assert forall i :: 1 <= i < |pieces| ==> pieces[i] == named[i - 1];
    assert Proper(pieces);
    assert Render(pieces) == "..." + Spelled(labels);
    SubscriptIffRendered("..." + Spelled(labels), pieces);
  }

  lemma {:induction false} CountedIn(all: seq<Label>, l: Label)
    ensures CountOf(all, l) > 0 <==> l in all
  {
    if |all| > 0 {
      var n := |all| - 1;
      CountedIn(all[..n], l);
      assert all == all[..n] + [all[n]];
    }
  }

  lemma {:induction false} CountConcat(a: seq<Label>, b: seq<Label>, l: Label)
    ensures CountOf(a + b, l) == CountOf(a, l) + CountOf(b, l)
  {
    if |b| == 0 {
      assert a + b == a;
    } else {
      var n := |b| - 1;
      CountConcat(a, b[..n], l);
      assert (a + b)[..|a| + n] == a + b[..n];
    }
  }

  lemma {:induction false} FlattenKnown(labels: seq<seq<Label>>, w: nat)
    requires forall i :: 0 <= i < |labels| ==> Known(labels[i], w)
    ensures Known(Flatten(labels), w)
  {
    if |labels| > 0 {
      FlattenKnown(labels[..|labels| - 1], w);
    }
  }

  lemma {:induction false} SinglesNamed(all: seq<Label>, w: nat, n: nat)
    requires Known(all, w) && n <= 128
    ensures AllNamed(Singles(all, n))
  {
    if n > 0 {
      SinglesNamed(all, w, n - 1);
      CountedIn(all, Named((n - 1) as char));
    }
  }

  /**
   * An equation without an arrow parses to the same plan as its explicit form, which names the implicit output:
   * all ellipsis axes, then the letters that label exactly one axis, ascending.
   */
  lemma ArrowlessIsExplicit(equation: string, shapes: seq<Shape>, plan: Plan)
    requires ArrowAt(Stripped(equation), 0).None? && PlanOf(equation, shapes) == Ok(plan)
    ensures PlanOf(equation + ExplicitTail(plan.outputLabels), shapes) == Ok(plan)
  {
    hide FrontOf, Finish, Expanded, Pieces, Spelled, Singles, Known;
    var text := Stripped(equation);
    var f := FrontOf(SplitCommas(text), shapes).value;
    FrontFacts(SplitCommas(text), shapes);
    FlattenKnown(f.labels, f.width);
    var singles := Singles(Flatten(f.labels), 128);
    SinglesNamed(Flatten(f.labels), f.width, 128);
    FinishKeeps(f, ImplicitLabels(f.labels, f.width));
    SpelledSkips(f.width, singles);
    NamedRendered(singles);
    var tail := "->..." + Spelled(singles);
    TailClean(Spelled(singles));
    StrippedConcat(equation, tail);
    TailSplits(text, Spelled(singles));
    TailPieces(singles, f.width);
  }

  lemma FinishKeeps(f: Front, output: seq<Label>)
    ensures Finish(f, output).Ok? ==> Finish(f, output).value.outputLabels == output
  {
  }

  lemma TailClean(letters: string)
    requires forall i :: 0 <= i < |letters| ==> IsLetter(letters[i])
    ensures Stripped("->..." + letters) == "->..." + letters
  {
    CleanConcat("->...", letters);
  }

  lemma CleanConcat(head: string, letters: string)
    requires head == "->..." && forall i :: 0 <= i < |letters| ==> IsLetter(letters[i])
    ensures Stripped(head + letters) == head + letters
  {
    hide Stripped, IsWhitespace, IsLetter;
    forall i | 0 <= i < |head|
      ensures !IsWhitespace(head[i])
    {
      assert head[i] == '-' || head[i] == '>' || head[i] == '.';
      PlainChar(head[i]);
    }
    forall i | 0 <= i < |letters|
      ensures !IsWhitespace(letters[i])
    {
      PlainChar(letters[i]);
    }
    NothingToStrip(head + letters);
  }

  lemma PlainChar(c: char)
    requires IsLetter(c) || c == '-' || c == '>' || c == '.'
    ensures !IsWhitespace(c)
  {
  }
}
