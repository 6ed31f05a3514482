/**
 * What an accepted contraction equation says: its text, its labels, its extents and its output, and that nothing more
 * is refused.
 */
module EinsumMeaning {
  import opened Wrappers
  import Shapes
  import opened Einsum
  import opened EinsumPlan

  // Labels

  /** The pieces as labels in place, an ellipsis at position `d` standing for the axes from `low` to `high`. */
  ghost predicate SpreadAt(pieces: seq<Piece>, low: nat, high: nat, e: seq<Label>, d: nat)
    requires low <= high
  {
    var v := high - low;
    d < |pieces| && pieces[d].Dots? && |e| == |pieces| - 1 + v &&
    (forall j: nat :: j < |pieces| && j != d ==> pieces[j].Letter?) &&
    forall i: nat :: i < |e| ==> e[i] == PlacedAt(pieces, low, v, d, i)
  }

  /** The label at place `i`: a letter before or after the ellipsis, or one of its `v` axes. */
  function PlacedAt(pieces: seq<Piece>, low: nat, v: nat, d: nat, i: nat): Label {
    if d <= i < d + v then Ellipsis(low + i - d)
    else
      var at := if i < d then i else i + 1 - v;
      if 0 <= at < |pieces| && pieces[at].Letter? then Named(pieces[at].c) else Ellipsis(0)
  }

  lemma PlacedNext(pieces: seq<Piece>, low: nat, v: nat, d: nat, i: nat)
    requires |pieces| > 0 && 0 < d && 0 < i
    ensures PlacedAt(pieces, low, v, d, i) == PlacedAt(pieces[1..], low, v, d - 1, i - 1)
  {
  }

  ghost predicate Plain(pieces: seq<Piece>, e: seq<Label>) {
    |e| == |pieces| && forall j: nat :: j < |e| ==> pieces[j].Letter? && e[j] == Named(pieces[j].c)
  }

  ghost predicate Spread(pieces: seq<Piece>, low: nat, high: nat, e: seq<Label>)
    requires low <= high
  {
    if Dots in pieces then exists d: nat :: SpreadAt(pieces, low, high, e, d) else Plain(pieces, e)
  }

  lemma {:induction false} PlainExpanded(pieces: seq<Piece>, low: nat, high: nat)
    requires low <= high && Dots !in pieces
    ensures Plain(pieces, Expanded(pieces, low, high))
  {
    if |pieces| > 0 {
      var rest := pieces[1..];
      assert forall j: nat :: j < |rest| ==> rest[j] == pieces[j + 1];
      PlainExpanded(rest, low, high);
      assert pieces[0] in pieces;
    }
  }

  lemma {:induction false} SpreadExpanded(pieces: seq<Piece>, low: nat, high: nat) returns (d: nat)
    requires low <= high && Proper(pieces) && Dots in pieces
    ensures SpreadAt(pieces, low, high, Expanded(pieces, low, high), d)
  {
    var rest, e := pieces[1..], Expanded(pieces, low, high);
    assert forall j: nat :: j < |rest| ==> rest[j] == pieces[j + 1];
    if pieces[0].Dots? {
      d := 0;
      assert Dots !in rest;
      PlainExpanded(rest, low, high);
      assert e == EllipsisRun(low, high) + Expanded(rest, low, high);
    } else {
      var c := SpreadExpanded(rest, low, high);
      d := c + 1;
      assert e == [Named(pieces[0].c)] + Expanded(rest, low, high);
      hide PlacedAt;
      forall i: nat | i < |e|
        ensures e[i] == PlacedAt(pieces, low, high - low, d, i)
      {
        if i > 0 {
          PlacedNext(pieces, low, high - low, d, i);
          assert e[i] == Expanded(rest, low, high)[i - 1];
        } else {
          FirstPlaced(pieces, low, high - low, d);
        }
      }
    }
  }

  lemma FirstPlaced(pieces: seq<Piece>, low: nat, v: nat, d: nat)
    requires |pieces| > 0 && 0 < d && pieces[0].Letter?
    ensures PlacedAt(pieces, low, v, d, 0) == Named(pieces[0].c)
  {
  }

  /** Every letter and every ellipsis axis keeps its place in the text. */
  lemma ExpandedSpreads(pieces: seq<Piece>, low: nat, high: nat)
    requires low <= high && Proper(pieces)
    ensures Spread(pieces, low, high, Expanded(pieces, low, high))
  {
    if Dots in pieces {
      var d := SpreadExpanded(pieces, low, high);
    } else {
      PlainExpanded(pieces, low, high);
    }
  }

  /** ... and no other labels do. */
  lemma SpreadIsExpanded(pieces: seq<Piece>, low: nat, high: nat, e: seq<Label>)
    requires low <= high && Proper(pieces) && Spread(pieces, low, high, e)
    ensures e == Expanded(pieces, low, high)
  {
    var f := Expanded(pieces, low, high);
    if Dots in pieces {
      var d: nat :| SpreadAt(pieces, low, high, e, d);
      var c := SpreadExpanded(pieces, low, high);
      assert c == d;
    } else {
      PlainExpanded(pieces, low, high);
    }
  }

  // The text

  /** What is dropped from an equation: Unicode's white space, by code point. */
  lemma Blanks(c: char)
    ensures Stripped([c]) == if IsWhitespace(c) then "" else [c]
    ensures IsWhitespace(c) <==>
            c as int in {9, 10, 11, 12, 13, 32, 133, 160, 5760, 8232, 8233, 8239, 8287, 12288} ||
            8192 <= c as int <= 8202
  {
  }

  function Comma(parts: seq<string>): string
    requires |parts| > 0
  {
    if |parts| == 1 then parts[0] else parts[0] + "," + Comma(parts[1..])
  }

  function Texts(terms: seq<seq<Piece>>): (texts: seq<string>)
    ensures |texts| == |terms| && forall i :: 0 <= i < |terms| ==> texts[i] == Render(terms[i])
  {
    seq(|terms|, i requires 0 <= i < |terms| => Render(terms[i]))
  }

  /** An equation without blanks: its terms between commas, and its output side, if it has one, after an arrow. */
  function Spelling(terms: seq<seq<Piece>>, out: Option<seq<Piece>>): string
    requires |terms| > 0
  {
    Comma(Texts(terms)) + match out case None => "" case Some(pieces) => "->" + Render(pieces)
  }

  ghost predicate WellSpelled(terms: seq<seq<Piece>>, out: Option<seq<Piece>>) {
    |terms| > 0 && (forall i :: 0 <= i < |terms| ==> Proper(terms[i])) && (out.Some? ==> Proper(out.value))
  }

  lemma {:induction false} CommaBack(text: string)
    ensures Comma(SplitCommas(text)) == text
  {
    if |text| > 0 {
      CommaBack(text[1..]);
      var rest := SplitCommas(text[1..]);
      var parts := SplitCommas(text);
      if text[0] == ',' {
        assert parts[1..] == rest;
        assert Comma(parts) == "" + "," + Comma(rest);
        assert text == "," + text[1..];
      } else {
        assert parts[1..] == rest[1..];
        assert text == [text[0]] + text[1..];
        if |rest| > 1 {
          assert Comma(parts) == ([text[0]] + rest[0]) + "," + Comma(rest[1..]);
          assert Comma(parts) == [text[0]] + (rest[0] + "," + Comma(rest[1..]));
        }
      }
    }
  }

  lemma {:induction false} SplitPart(part: string, tail: string)
    requires ',' !in part
    ensures SplitCommas(part + "," + tail) == [part] + SplitCommas(tail)
  {
    if |part| == 0 {
      assert part + "," + tail == "," + tail && ("," + tail)[1..] == tail;
    } else {
      var text := part + "," + tail;
      assert text[0] == part[0] && text[1..] == part[1..] + "," + tail;
      assert part[0] in part;
      SplitPart(part[1..], tail);
      assert [part[0]] + part[1..] == part;
    }
  }

  lemma {:induction false} SplitLast(part: string)
    requires ',' !in part
    ensures SplitCommas(part) == [part]
  {
    if |part| > 0 {
      assert part[0] in part;
      SplitLast(part[1..]);
      assert [part[0]] + part[1..] == part;
    }
  }

  lemma {:induction false} SplitBack(parts: seq<string>)
    requires |parts| > 0 && forall i :: 0 <= i < |parts| ==> ',' !in parts[i]
    ensures SplitCommas(Comma(parts)) == parts
  {
    if |parts| == 1 {
      SplitLast(parts[0]);
    } else {
      SplitBack(parts[1..]);
      SplitPart(parts[0], Comma(parts[1..]));
      assert [parts[0]] + parts[1..] == parts;
    }
  }

  lemma {:induction false} RenderedChars(pieces: seq<Piece>)
    requires Proper(pieces)
    ensures forall c :: c in Render(pieces) ==> IsLetter(c) || c == '.'
  {
    if |pieces| > 0 {
      var rest := pieces[1..];
      assert forall i :: 0 <= i < |rest| ==> rest[i] == pieces[i + 1];
      RenderedChars(rest);
    }
  }

  lemma {:induction false} CommaChars(parts: seq<string>)
    requires |parts| > 0 && forall i, c :: 0 <= i < |parts| && c in parts[i] ==> IsLetter(c) || c == '.'
    ensures forall c :: c in Comma(parts) ==> IsLetter(c) || c == '.' || c == ','
  {
    if |parts| > 1 {
      CommaChars(parts[1..]);
    }
  }

  lemma {:induction false} TermsBack(terms: seq<seq<Piece>>)
    requires forall i :: 0 <= i < |terms| ==> Proper(terms[i])
    ensures Terms(Texts(terms)) == Some(terms)
  {
    if |terms| > 0 {
      var n := |terms| - 1;
      TermsBack(terms[..n]);
      assert Texts(terms)[..n] == Texts(terms[..n]);
      PiecesComplete(terms[n]);
      assert terms[..n] + [terms[n]] == terms;
    }
  }

  lemma NoDash(text: string)
    requires forall c :: c in text ==> IsLetter(c) || c == '.' || c == ','
    ensures ArrowAt(text, 0).None? && forall j :: 0 <= j < |text| ==> text[j] != '-'
  {
    forall j | 0 <= j < |text|
      ensures text[j] != '-'
    {
      assert text[j] in text;
    }
    NoArrow(text, 0);
  }

  /** A well-spelled equation splits into its terms and its output side. */
  lemma SpellingSplits(terms: seq<seq<Piece>>, out: Option<seq<Piece>>)
    requires WellSpelled(terms, out)
    ensures Split(Spelling(terms, out)) ==
            Some(Sides(Texts(terms), match out case None => None case Some(p) => Some(Render(p))))
  {
    hide Render, Proper, Comma, SplitCommas, ArrowAt;
    var texts := Texts(terms);
    forall i, c | 0 <= i < |texts| && c in texts[i]
      ensures IsLetter(c) || c == '.'
    {
      RenderedChars(terms[i]);
    }
    CommaChars(texts);
    forall i | 0 <= i < |texts|
      ensures ',' !in texts[i]
    {
      assert !IsLetter(',');
    }
    SplitBack(texts);
    var head := Comma(texts);
    NoDash(head);
    match out {
      case None => assert head + "" == head;
      case Some(p) =>
        RenderedChars(p);
        NoDash(Render(p));
        var tail := "->" + Render(p);
        var text := head + tail;
        ArrowAppended(head, tail, 0);
        assert text[..|head|] == head && text[|head| + 2..] == Render(p);
        forall j | |head| + 2 <= j < |text|
          ensures text[j] != '-'
        {
          assert text[j] == Render(p)[j - |head| - 2];
        }
        NoArrow(text, |head| + 2);
    }
  }

  /** Whatever splits into terms and an output side is spelled by them. */
  lemma SplitSpells(text: string, terms: seq<seq<Piece>>, out: Option<seq<Piece>>)
    requires Split(text).Some? && Terms(Split(text).value.inputs) == Some(terms)
    requires match Split(text).value.output
             case None => out == None
             case Some(o) => out.Some? && Pieces(o) == out
    ensures WellSpelled(terms, out) && text == Spelling(terms, out)
  {
    hide Render, Proper, Comma, SplitCommas, Pieces, Terms;
    var sides := Split(text).value;
    forall i | 0 <= i < |terms|
      ensures Proper(terms[i]) && Render(terms[i]) == sides.inputs[i]
    {
      PiecesSound(sides.inputs[i]);
    }
    assert Texts(terms) == sides.inputs;
    match ArrowAt(text, 0)
    case None => CommaBack(text);
    case Some(i) =>
      CommaBack(text[..i]);
      PiecesSound(text[i + 2..]);
      assert text == text[..i] + ("->" + text[i + 2..]);
  }

  // Orders

  /** Letters by code, then ellipsis axes by number. */
  predicate Less(a: Label, b: Label) {
    match a
    case Named(c) => b.Ellipsis? || c < b.c
    case Ellipsis(k) => b.Ellipsis? && k < b.k
  }

  ghost predicate Sorted(labels: seq<Label>) {
    forall i, j :: 0 <= i < j < |labels| ==> Less(labels[i], labels[j])
  }

  lemma {:induction false} SortedUnique(a: seq<Label>, b: seq<Label>)
    requires Sorted(a) && Sorted(b) && forall l :: l in a <==> l in b
    ensures a == b
  {
    if |a| == 0 {
      MembersOf(b);
    } else {
      assert a[|a| - 1] in b;
      var m, n := |a| - 1, |b| - 1;
      assert b[n] in a;
      var x, y := a[m], b[n];
      SortedLast(a, y);
      SortedLast(b, x);
      assert x == y;
      forall l
        ensures l in a[..m] <==> l in b[..n]
      {
        SortedInit(a, l);
        SortedInit(b, l);
      }
      SortedUnique(a[..m], b[..n]);
      assert a == a[..m] + [x] && b == b[..n] + [y];
    }
  }

  lemma MembersOf(b: seq<Label>)
    ensures |b| > 0 ==> exists l :: l in b
  {
    if |b| > 0 {
      assert b[0] in b;
    }
  }

  lemma SortedLast(a: seq<Label>, l: Label)
    requires Sorted(a) && l in a
    ensures l == a[|a| - 1] || Less(l, a[|a| - 1])
  {
  }

  lemma SortedInit(a: seq<Label>, l: Label)
    requires Sorted(a) && |a| > 0
    ensures l in a[..|a| - 1] <==> l in a && l != a[|a| - 1]
  {
    if l in a && l != a[|a| - 1] {
      var i :| 0 <= i < |a| && a[i] == l;
      assert a[..|a| - 1][i] == l;
    }
  }

  lemma {:induction false} RestNamedSorted(m: map<Label, nat>, output: seq<Label>, n: nat)
    requires n <= 128
    ensures Sorted(RestNamed(m, output, n))
  {
    if n > 0 {
      RestNamedSorted(m, output, n - 1);
      RestNamedIs(m, output, n - 1);
      var before := RestNamed(m, output, n - 1);
      assert forall i :: 0 <= i < |before| ==> before[i] in before;
    }
  }

  lemma {:induction false} RestEllipsisSorted(m: map<Label, nat>, output: seq<Label>, n: nat)
    ensures Sorted(RestEllipsis(m, output, n))
  {
    if n > 0 {
      RestEllipsisSorted(m, output, n - 1);
      RestEllipsisIs(m, output, n - 1);
      var before := RestEllipsis(m, output, n - 1);
      assert forall i :: 0 <= i < |before| ==> before[i] in before;
    }
  }

  /** The contracted labels are listed in order. */
  lemma ContractedSorted(m: map<Label, nat>, output: seq<Label>, w: nat)
    ensures Sorted(Contracted(m, output, w))
  {
    hide RestNamed, RestEllipsis;
    RestNamedSorted(m, output, 128);
    RestEllipsisSorted(m, output, w);
    RestNamedIs(m, output, 128);
    RestEllipsisIs(m, output, w);
    var a, b := RestNamed(m, output, 128), RestEllipsis(m, output, w);
    assert forall i :: 0 <= i < |a| ==> a[i] in a;
    assert forall i :: 0 <= i < |b| ==> b[i] in b;
  }

  /** The label stands at exactly one place. */
  ghost predicate Once(all: seq<Label>, l: Label) {
    exists i: nat :: i < |all| && all[i] == l && forall j: nat :: j < |all| && all[j] == l ==> j == i
  }

  /** Axis `j` of operand `i` carries the label. */
  ghost predicate Carries(labels: seq<seq<Label>>, l: Label, i: nat, j: nat) {
    i < |labels| && j < |labels[i]| && labels[i][j] == l
  }

  /** The label stands at exactly one axis of one operand. */
  ghost predicate OneAxis(labels: seq<seq<Label>>, l: Label) {
    exists i: nat, j: nat :: Sole(labels, l, i, j)
  }

  ghost predicate Sole(labels: seq<seq<Label>>, l: Label, i: nat, j: nat) {
    Carries(labels, l, i, j) && forall a: nat, b: nat :: Carries(labels, l, a, b) ==> a == i && b == j
  }

  lemma {:induction false} FlattenCarries(labels: seq<seq<Label>>, l: Label)
    ensures l in Flatten(labels) <==> exists i: nat, j: nat :: Carries(labels, l, i, j)
  {
    if |labels| > 0 {
      var n := |labels| - 1;
      FlattenCarries(labels[..n], l);
      CarriedMore(labels, l);
      if l in labels[n] {
        var j :| 0 <= j < |labels[n]| && labels[n][j] == l;
        assert Carries(labels, l, n, j);
      }
    }
  }

  lemma CarriedMore(labels: seq<seq<Label>>, l: Label)
    requires |labels| > 0
    ensures var n := |labels| - 1;
            forall i: nat, j: nat ::
              Carries(labels, l, i, j) <==>
              Carries(labels[..n], l, i, j) || (i == n && j < |labels[n]| && labels[n][j] == l)
  {
  }

  lemma OnceInEither(x: seq<Label>, y: seq<Label>, l: Label)
    ensures Once(x + y, l) <==> (Once(x, l) && l !in y) || (l !in x && Once(y, l))
  {
    hide Once, CountOf;
    CountConcat(x, y, l);
    CountOnce(x + y, l);
    CountOnce(x, l);
    CountOnce(y, l);
    CountedIn(x, l);
    CountedIn(y, l);
  }

  /** A label occurs once among all operands' labels exactly when it labels one axis. */
  lemma {:induction false} OnceIsOneAxis(labels: seq<seq<Label>>, l: Label)
    ensures Once(Flatten(labels), l) <==> OneAxis(labels, l)
  {
    hide Once;
    if |labels| == 0 {
      assert !Once([], l) by {
        CountOnce([], l);
      }
    } else {
      var n := |labels| - 1;
      OnceIsOneAxis(labels[..n], l);
      FlattenCarries(labels[..n], l);
      OnceInEither(Flatten(labels[..n]), labels[n], l);
      OneAxisMore(labels, l);
    }
  }

  lemma OneAxisMore(labels: seq<seq<Label>>, l: Label)
    requires |labels| > 0
    ensures var n := |labels| - 1;
            var carried := exists i: nat, j: nat :: Carries(labels[..n], l, i, j);
            OneAxis(labels, l) <==> (OneAxis(labels[..n], l) && l !in labels[n]) || (!carried && Once(labels[n], l))
  {
    var n := |labels| - 1;
    var less, last := labels[..n], labels[n];
    CarriedMore(labels, l);
    if OneAxis(less, l) && l !in last {
      var i: nat, j: nat :| Sole(less, l, i, j);
      assert Sole(labels, l, i, j);
    }
    if Once(last, l) && !exists i: nat, j: nat :: Carries(less, l, i, j) {
      var j: nat :| j < |last| && last[j] == l && forall b: nat :: b < |last| && last[b] == l ==> b == j;
      assert Sole(labels, l, n, j);
    }
    if OneAxis(labels, l) {
      var i: nat, j: nat :| Sole(labels, l, i, j);
      if i < n {
        assert Sole(less, l, i, j);
        assert forall b: nat :: b < |last| && last[b] == l ==> Carries(labels, l, n, b);
      } else {
        assert last[j] == l && forall b: nat :: b < |last| && last[b] == l ==> Carries(labels, l, n, b);
        assert Once(last, l);
      }
    }
  }

  lemma {:induction false} CountOnce(all: seq<Label>, l: Label)
    ensures CountOf(all, l) == 1 <==> Once(all, l)
  {
    if |all| > 0 {
      var n := |all| - 1;
      var less := all[..n];
      CountOnce(less, l);
      CountedIn(less, l);
      if all[n] != l && Once(less, l) {
        var i: nat :| i < |less| && less[i] == l && forall j: nat :: j < |less| && less[j] == l ==> j == i;
        assert all[i] == l;
        assert forall j: nat :: j < |all| && all[j] == l ==> j < n && less[j] == l;
      }
    }
  }

  /** The letters that label exactly one axis, in order. */
  lemma {:induction false} SinglesAre(all: seq<Label>, n: nat)
    requires n <= 128
    ensures Sorted(Singles(all, n))
    ensures forall l :: l in Singles(all, n) <==> l.Named? && l.c as nat < n && Once(all, l)
  {
    hide Once;
    if n > 0 {
      SinglesAre(all, n - 1);
      var before := Singles(all, n - 1);
      CountOnce(all, Named((n - 1) as char));
      assert forall i :: 0 <= i < |before| ==> before[i] in before;
    }
  }

  // What a plan is

  /** How many axes a term's ellipsis covers: those its letters leave over. */
  function Covered(pieces: seq<Piece>, rank: nat): int {
    if Dots in pieces then rank + 1 - |pieces| else 0
  }

  /** The term suits the rank, and its ellipsis is at most `w` axes wide. */
  ghost predicate Suits(pieces: seq<Piece>, rank: nat, w: nat) {
    0 <= Covered(pieces, rank) <= w && (Dots !in pieces ==> |pieces| == rank)
  }

  ghost predicate TermLabelledAs(pieces: seq<Piece>, rank: nat, w: nat, labels: seq<Label>) {
    Suits(pieces, rank, w) && Spread(pieces, w - Covered(pieces, rank), w, labels)
  }

  /** `w` is the widest ellipsis, and every operand's labels are its text with the ellipsis ending at axis `w - 1`. */
  ghost predicate LabelledAs(terms: seq<seq<Piece>>, shapes: seq<Shape>, w: nat, labels: seq<seq<Label>>) {
    |terms| == |shapes| == |labels| &&
    (w == 0 || exists i :: 0 <= i < |terms| && Covered(terms[i], |shapes[i]|) == w) &&
    forall i :: 0 <= i < |terms| ==> TermLabelledAs(terms[i], |shapes[i]|, w, labels[i])
  }

  /** Repeated labels of an operand have one length, and every label's lengths join to its extent. */
  ghost predicate Sized(labels: seq<seq<Label>>, shapes: seq<Shape>, extents: map<Label, nat>) {
    Labelled(labels, shapes) && (forall i :: 0 <= i < |labels| ==> Consistent(AxesOf(labels[i], shapes[i]))) &&
    forall l :: HasExtent(AllAxes(labels, shapes, |labels|), extents, l)
  }

  ghost predicate HasExtent(axes: seq<Axis>, extents: map<Label, nat>, l: Label) {
    (l in extents <==> |LengthsOf(axes, l)| > 0) &&
    (l in extents ==> ExtentFor(LengthsOf(axes, l), extents[l]))
  }

  /** The lengths join, to nothing if one of them is empty and otherwise to the largest. */
  ghost predicate ExtentFor(lengths: seq<nat>, extent: nat) {
    |lengths| > 0 && Joinable(lengths) &&
    (if 0 in lengths then extent == 0 else extent in lengths && forall x :: x in lengths ==> x <= extent)
  }

  lemma ExtentIs(lengths: seq<nat>, extent: nat)
    requires |lengths| > 0
    ensures ExtentOf(lengths) == Some(extent) <==> ExtentFor(lengths, extent)
  {
    hide Joined, Joinable;
    JoinedIff(lengths);
    if 0 !in lengths {
      PositiveExtent(lengths);
    }
  }

  /** The output asked for in place, or else all ellipsis axes and then the letters that label one axis, in order. */
  ghost predicate Chosen(out: Option<seq<Piece>>, w: nat, labels: seq<seq<Label>>, output: seq<Label>) {
    match out
    case Some(pieces) => Spread(pieces, 0, w, output)
    case None =>
      |output| >= w && (forall k: nat :: k < w ==> output[k] == Ellipsis(k)) && Sorted(output[w..]) &&
      forall l :: l in output[w..] <==> l.Named? && l.c as nat < 128 && OneAxis(labels, l)
  }

  /** A plan laid out as its equation says. */
  ghost predicate Laid(terms: seq<seq<Piece>>, out: Option<seq<Piece>>, shapes: seq<Shape>, plan: Plan, w: nat) {
    LabelledAs(terms, shapes, w, plan.operandLabels) && Sized(plan.operandLabels, shapes, plan.extents) &&
    Chosen(out, w, plan.operandLabels, plan.outputLabels) && Distinct(plan.outputLabels) &&
    (forall l :: l in plan.outputLabels ==> l in plan.extents) && Sorted(plan.contractedLabels) &&
    forall l :: l in plan.contractedLabels <==> l in plan.extents && l !in plan.outputLabels
  }

  /** Both the output and the contracted axes have a representable element count. */
  ghost predicate Representable(plan: Plan)
  {
    (forall l :: l in plan.outputLabels || l in plan.contractedLabels ==> l in plan.extents) &&
    Shapes.CheckedNumel(Dims(plan.extents, plan.outputLabels)).Some? &&
    Shapes.CheckedNumel(Dims(plan.extents, plan.contractedLabels)).Some?
  }

  lemma {:induction false} LettersAre(pieces: seq<Piece>)
    requires Proper(pieces)
    ensures Letters(pieces) == |pieces| - if Dots in pieces then 1 else 0
  {
    if |pieces| > 0 {
      var rest := pieces[1..];
      assert pieces == [pieces[0]] + rest;
      assert forall i :: 0 <= i < |rest| ==> rest[i] == pieces[i + 1];
      LettersAre(rest);
      if pieces[0].Dots? {
        assert Dots !in rest;
      }
    }
  }

  lemma WidthIs(pieces: seq<Piece>, rank: nat, w: nat)
    requires Proper(pieces)
    ensures Suits(pieces, rank, w) <==> Width(pieces, rank).Some? && Width(pieces, rank).value <= w
    ensures Width(pieces, rank).Some? ==> Width(pieces, rank).value == Covered(pieces, rank)
  {
    LettersAre(pieces);
  }

  lemma {:induction false} WidestIs(terms: seq<seq<Piece>>, shapes: seq<Shape>, n: nat)
    requires n <= |terms| == |shapes| && forall i :: 0 <= i < |terms| ==> Proper(terms[i])
    ensures Widest(terms, shapes, n).Some? <==> forall i :: 0 <= i < n ==> Width(terms[i], |shapes[i]|).Some?
    ensures var w := Widest(terms, shapes, n);
            w.Some? ==> w.value == 0 || exists i :: 0 <= i < n && Width(terms[i], |shapes[i]|) == w
  {
    hide Width;
    if n > 0 {
      WidestIs(terms, shapes, n - 1);
    }
  }

  /** The widths and labels that parsing finds, and no others. */
  lemma LabelsAre(terms: seq<seq<Piece>>, shapes: seq<Shape>, w: nat, labels: seq<seq<Label>>)
    requires |terms| == |shapes| && forall i :: 0 <= i < |terms| ==> Proper(terms[i])
    ensures LabelledAs(terms, shapes, w, labels) <==>
            Widest(terms, shapes, |terms|) == Some(w) && labels == OperandLabels(terms, shapes, w)
  {
    hide Width, Widest, LabelledAs;
    if Widest(terms, shapes, |terms|) == Some(w) {
      FoundLabels(terms, shapes, w);
    }
    if LabelledAs(terms, shapes, w, labels) {
      OnlyLabels(terms, shapes, w, labels);
    }
  }

  lemma FoundLabels(terms: seq<seq<Piece>>, shapes: seq<Shape>, w: nat)
    requires |terms| == |shapes| && forall i :: 0 <= i < |terms| ==> Proper(terms[i])
    requires Widest(terms, shapes, |terms|) == Some(w)
    ensures LabelledAs(terms, shapes, w, OperandLabels(terms, shapes, w))
  {
    hide Width, Widest, Expanded, TermLabelledAs, Covered, Proper, OperandLabels, MadeFrom;
    var labels := OperandLabels(terms, shapes, w);
    Disassembled(terms, shapes, w, labels);
    forall i | 0 <= i < |terms|
      ensures TermLabelledAs(terms[i], |shapes[i]|, w, labels[i])
    {
      FoundTerm(terms[i], |shapes[i]|, w, labels[i]);
    }
    FoundWidest(terms, shapes, w);
  }

  lemma Disassembled(terms: seq<seq<Piece>>, shapes: seq<Shape>, w: nat, labels: seq<seq<Label>>)
    requires |terms| == |shapes|
    requires forall i :: 0 <= i < |terms| ==>
               Width(terms[i], |shapes[i]|).Some? && Width(terms[i], |shapes[i]|).value <= w
    requires labels == OperandLabels(terms, shapes, w)
    ensures |labels| == |terms| && forall i :: 0 <= i < |terms| ==> MadeFrom(terms[i], |shapes[i]|, w, labels[i])
  {
    hide Width, Expanded, OperandLabels;
  }

  lemma FoundWidest(terms: seq<seq<Piece>>, shapes: seq<Shape>, w: nat)
    requires |terms| == |shapes| && forall i :: 0 <= i < |terms| ==> Proper(terms[i])
    requires Widest(terms, shapes, |terms|) == Some(w)
    ensures w == 0 || exists i :: 0 <= i < |terms| && Covered(terms[i], |shapes[i]|) == w
  {
    hide Width, Widest, Expanded, TermLabelledAs, Covered, Proper, OperandLabels;
    WidestIs(terms, shapes, |terms|);
    if w > 0 {
      var i :| 0 <= i < |terms| && Width(terms[i], |shapes[i]|) == Some(w);
      WidthIs(terms[i], |shapes[i]|, w);
    }
  }

  lemma FoundTerm(pieces: seq<Piece>, rank: nat, w: nat, labels: seq<Label>)
    requires Proper(pieces) && MadeFrom(pieces, rank, w, labels)
    ensures TermLabelledAs(pieces, rank, w, labels)
  {
    hide Width, Spread, Expanded, Suits, Covered;
    WidthIs(pieces, rank, w);
    ExpandedSpreads(pieces, w - Covered(pieces, rank), w);
  }

  lemma OnlyLabels(terms: seq<seq<Piece>>, shapes: seq<Shape>, w: nat, labels: seq<seq<Label>>)
    requires |terms| == |shapes| && forall i :: 0 <= i < |terms| ==> Proper(terms[i])
    requires LabelledAs(terms, shapes, w, labels)
    ensures Widest(terms, shapes, |terms|) == Some(w) && labels == OperandLabels(terms, shapes, w)
  {
    hide Width, Widest, Expanded, TermLabelledAs, Proper, Suits, Covered, MadeFrom, OperandLabels;
    AllSuit(terms, shapes, w, labels);
    WidestAgrees(terms, shapes, w);
    forall i | 0 <= i < |terms|
      ensures MadeFrom(terms[i], |shapes[i]|, w, labels[i])
    {
      OnlyTerm(terms[i], |shapes[i]|, w, labels[i]);
    }
    Assembled(terms, shapes, w, labels);
  }

  ghost predicate MadeFrom(pieces: seq<Piece>, rank: nat, w: nat, labels: seq<Label>) {
    Width(pieces, rank).Some? && Width(pieces, rank).value <= w &&
    labels == Expanded(pieces, w - Width(pieces, rank).value, w)
  }

  lemma Assembled(terms: seq<seq<Piece>>, shapes: seq<Shape>, w: nat, labels: seq<seq<Label>>)
    requires |terms| == |shapes| == |labels|
    requires forall i :: 0 <= i < |terms| ==> MadeFrom(terms[i], |shapes[i]|, w, labels[i])
    ensures forall i :: 0 <= i < |terms| ==>
              Width(terms[i], |shapes[i]|).Some? && Width(terms[i], |shapes[i]|).value <= w
    ensures labels == OperandLabels(terms, shapes, w)
  {
    hide Width, Expanded;
  }

  lemma AllSuit(terms: seq<seq<Piece>>, shapes: seq<Shape>, w: nat, labels: seq<seq<Label>>)
    requires LabelledAs(terms, shapes, w, labels)
    ensures forall i :: 0 <= i < |terms| ==> Suits(terms[i], |shapes[i]|, w)
  {
    hide Suits, Covered, Spread;
    forall i | 0 <= i < |terms|
      ensures Suits(terms[i], |shapes[i]|, w)
    {
      assert TermLabelledAs(terms[i], |shapes[i]|, w, labels[i]);
    }
  }

  lemma OnlyTerm(pieces: seq<Piece>, rank: nat, w: nat, labels: seq<Label>)
    requires Proper(pieces) && TermLabelledAs(pieces, rank, w, labels)
    ensures MadeFrom(pieces, rank, w, labels)
  {
    hide Width, Spread, Expanded, Suits, Covered;
    WidthIs(pieces, rank, w);
    SpreadIsExpanded(pieces, w - Covered(pieces, rank), w, labels);
  }

  lemma WidestAgrees(terms: seq<seq<Piece>>, shapes: seq<Shape>, w: nat)
    requires |terms| == |shapes| && forall i :: 0 <= i < |terms| ==> Proper(terms[i])
    requires forall i :: 0 <= i < |terms| ==> Suits(terms[i], |shapes[i]|, w)
    requires w == 0 || exists i :: 0 <= i < |terms| && Covered(terms[i], |shapes[i]|) == w
    ensures Widest(terms, shapes, |terms|) == Some(w)
  {
    hide Width, Widest, Suits, Covered;
    WidestIs(terms, shapes, |terms|);
    forall i | 0 <= i < |terms|
      ensures Width(terms[i], |shapes[i]|).Some? && Width(terms[i], |shapes[i]|).value <= w
      ensures Width(terms[i], |shapes[i]|).value == Covered(terms[i], |shapes[i]|)
    {
      WidthIs(terms[i], |shapes[i]|, w);
    }
  }

  /** The extents that parsing records, and no others. */
  lemma ExtentsAre(labels: seq<seq<Label>>, shapes: seq<Shape>, extents: map<Label, nat>)
    requires Labelled(labels, shapes)
    ensures Sized(labels, shapes, extents) <==>
            Extents(labels, shapes).Some? &&
            extents == Zeroed(Extents(labels, shapes).value, AllAxes(labels, shapes, |labels|))
  {
    hide AllAxes, LengthsOf, Joins, Zeroed, ExtentOf, Consistent, ExtentFor;
    var axes := AllAxes(labels, shapes, |labels|);
    JoinsByLabel(axes);
    if Joins(axes).Some? {
      forall l
        ensures HasExtent(axes, Zeroed(Joins(axes).value, axes), l)
      {
        ExtentByLabel(axes, l);
        HasExtentIs(axes, Zeroed(Joins(axes).value, axes), l);
      }
      if Sized(labels, shapes, extents) {
        var m := Zeroed(Joins(axes).value, axes);
        forall l
          ensures l in m <==> l in extents
          ensures l in m ==> m[l] == extents[l]
        {
          assert HasExtent(axes, extents, l) && HasExtent(axes, m, l);
          HasExtentIs(axes, extents, l);
          HasExtentIs(axes, m, l);
        }
        assert m == extents;
      }
    } else if Sized(labels, shapes, extents) {
      var l :| Stuck(axes, l);
      assert HasExtent(axes, extents, l);
      HasExtentIs(axes, extents, l);
      StuckHasNone(axes, l);
    }
  }

  lemma HasExtentIs(axes: seq<Axis>, extents: map<Label, nat>, l: Label)
    ensures HasExtent(axes, extents, l) <==>
            (l in extents <==> |LengthsOf(axes, l)| > 0) &&
            (l in extents ==> |LengthsOf(axes, l)| > 0 && ExtentOf(LengthsOf(axes, l)) == Some(extents[l]))
  {
    hide LengthsOf, ExtentOf, ExtentFor;
    if |LengthsOf(axes, l)| > 0 && l in extents {
      ExtentIs(LengthsOf(axes, l), extents[l]);
    }
  }

  lemma StuckHasNone(axes: seq<Axis>, l: Label)
    requires Stuck(axes, l)
    ensures ExtentOf(LengthsOf(axes, l)).None?
  {
    hide LengthsOf, Joined;
  }

  /** The output that parsing chooses, and no other. */
  lemma OutputIs(f: Front, out: Option<seq<Piece>>, output: seq<Label>)
    requires out.Some? ==> Proper(out.value)
    ensures Chosen(out, f.width, f.labels, output) <==>
            output == match out case None => ImplicitLabels(f.labels, f.width) case Some(p) => Expanded(p, 0, f.width)
  {
    hide Expanded, Spread, Singles, Once, OneAxis, Flatten, Sorted;
    match out
    case Some(p) =>
      ExpandedSpreads(p, 0, f.width);
      if Spread(p, 0, f.width, output) {
        SpreadIsExpanded(p, 0, f.width, output);
      }
    case None =>
      var w, singles := f.width, Singles(Flatten(f.labels), 128);
      SinglesAre(Flatten(f.labels), 128);
      var made := EllipsisRun(0, w) + singles;
      assert made[w..] == singles;
      forall l
        ensures Once(Flatten(f.labels), l) <==> OneAxis(f.labels, l)
      {
        OnceIsOneAxis(f.labels, l);
      }
      if Chosen(out, w, f.labels, output) {
        SortedUnique(output[w..], singles);
        assert output == output[..w] + output[w..];
        assert output[..w] == EllipsisRun(0, w);
      }
  }

  // What parsing accepts

  /** The blank-free text is this equation, and the plan is laid out as it says. */
  ghost predicate Reads(equation: string, shapes: seq<Shape>, plan: Plan) {
    exists terms: seq<seq<Piece>>, out: Option<seq<Piece>>, w: nat ::
      Spells(equation, terms, out) && Laid(terms, out, shapes, plan, w)
  }

  ghost predicate Spells(equation: string, terms: seq<seq<Piece>>, out: Option<seq<Piece>>) {
    WellSpelled(terms, out) && Stripped(equation) == Spelling(terms, out)
  }

  /** A laid-out equation parses to its plan, unless an element count is not representable. */
  lemma LaidParses(equation: string, shapes: seq<Shape>, plan: Plan, terms: seq<seq<Piece>>, out: Option<seq<Piece>>,
                   w: nat)
    requires Spells(equation, terms, out) && Laid(terms, out, shapes, plan, w)
    ensures PlanOf(equation, shapes) == if Representable(plan) then Ok(plan) else Err(ShapeOverflow)
  {
    hide LabelledAs, Sized, Chosen, Spelling, Texts, Split, Terms, Widest, OperandLabels, Extents, Zeroed, AllAxes,
      ImplicitLabels, Expanded, Pieces, Contracted, Proper, Render, Dims, Sorted, Distinct;
    SpellingSplits(terms, out);
    TermsBack(terms);
    SameCounts(terms, shapes, w, plan.operandLabels);
    LabelsAre(terms, shapes, w, plan.operandLabels);
    OperandsLabelled(Texts(terms), terms, shapes, w);
    ExtentsAre(plan.operandLabels, shapes, plan.extents);
    if out.Some? {
      PiecesComplete(out.value);
    }
    var f := Front(plan.operandLabels, w, plan.extents);
    assert FrontOf(Texts(terms), shapes) == Ok(f);
    OutputIs(f, out, plan.outputLabels);
    FrontFacts(Texts(terms), shapes);
    ContractedAre(f, plan.outputLabels, plan.contractedLabels);
  }

  lemma SameCounts(terms: seq<seq<Piece>>, shapes: seq<Shape>, w: nat, labels: seq<seq<Label>>)
    requires LabelledAs(terms, shapes, w, labels)
    ensures |terms| == |shapes| == |labels|
  {
  }

  lemma ContractedAre(f: Front, output: seq<Label>, rest: seq<Label>)
    requires forall i :: 0 <= i < |f.labels| ==> Known(f.labels[i], f.width)
    requires forall l :: l in f.extents <==> exists i :: 0 <= i < |f.labels| && l in f.labels[i]
    ensures Sorted(rest) && (forall l :: l in rest <==> l in f.extents && l !in output) <==>
            rest == Contracted(f.extents, output, f.width)
  {
    hide Contracted, Sorted;
    assert Enumerable(f.extents, f.width);
    ContractedIs(f.extents, output, f.width);
    ContractedSorted(f.extents, output, f.width);
    if Sorted(rest) && forall l :: l in rest <==> l in f.extents && l !in output {
      SortedUnique(rest, Contracted(f.extents, output, f.width));
    }
  }

  /** What parsing gets as far as laying out is laid out as the equation says. */
  lemma ParsedIsLaid(equation: string, shapes: seq<Shape>)
    requires PlanOf(equation, shapes).Ok? || PlanOf(equation, shapes) == Err(ShapeOverflow)
    ensures exists plan :: Reads(equation, shapes, plan)
  {
    hide LabelledAs, Sized, Chosen, Spelling, Texts, Split, Terms, Widest, OperandLabels, Extents, Zeroed, AllAxes,
      ImplicitLabels, Expanded, Pieces, Contracted, Proper, Render, Dims, Sorted, Distinct, Stripped;
    var text := Stripped(equation);
    var sides := Split(text).value;
    var terms := Terms(sides.inputs).value;
    var out := match sides.output case None => None case Some(o) => Pieces(o);
    SplitSpells(text, terms, out);
    var f := FrontOf(sides.inputs, shapes).value;
    var output := OutputOf(f, sides.output).value;
    var plan := Plan(f.labels, f.extents, output, Contracted(f.extents, output, f.width));
    OperandsLabelled(sides.inputs, terms, shapes, f.width);
    LabelsAre(terms, shapes, f.width, f.labels);
    ExtentsAre(f.labels, shapes, f.extents);
    OutputIs(f, out, output);
    FrontFacts(sides.inputs, shapes);
    ContractedAre(f, output, plan.contractedLabels);
    assert Laid(terms, out, shapes, plan, f.width);
    assert Spells(equation, terms, out);
    assert Reads(equation, shapes, plan);
  }

  /**
   * An equation parses to a plan exactly when its text spells that plan out and the plan's counts are representable.
   */
  lemma ParsesExactly(equation: string, shapes: seq<Shape>, plan: Plan)
    ensures PlanOf(equation, shapes) == Ok(plan) <==> Reads(equation, shapes, plan) && Representable(plan)
  {
    hide Laid, Spells, PlanOf;
    if PlanOf(equation, shapes) == Ok(plan) {
      ParsedIsLaid(equation, shapes);
      var p :| Reads(equation, shapes, p);
      var terms: seq<seq<Piece>>, out: Option<seq<Piece>>, w: nat :|
        Spells(equation, terms, out) && Laid(terms, out, shapes, p, w);
      LaidParses(equation, shapes, p, terms, out, w);
    }
    if Reads(equation, shapes, plan) {
      var terms: seq<seq<Piece>>, out: Option<seq<Piece>>, w: nat :|
        Spells(equation, terms, out) && Laid(terms, out, shapes, plan, w);
      LaidParses(equation, shapes, plan, terms, out, w);
    }
  }

  /** Counted from the right end of the term's ellipsis, axis `j` is number `w - 1 - j`. */
  ghost predicate TermAligned(pieces: seq<Piece>, labels: seq<Label>, w: nat) {
    forall d: nat, j: nat :: EllipsisAxis(pieces, labels, d, j) ==>
      j < w && labels[|labels| - (|pieces| - d) - j] == Ellipsis(w - 1 - j)
  }

  /** The ellipsis at position `d` covers an axis `j` places from its right end. */
  predicate EllipsisAxis(pieces: seq<Piece>, labels: seq<Label>, d: nat, j: nat) {
    d < |pieces| && pieces[d].Dots? && j + |pieces| <= |labels|
  }

  lemma LabelledAligned(pieces: seq<Piece>, rank: nat, w: nat, labels: seq<Label>)
    requires TermLabelledAs(pieces, rank, w, labels)
    ensures TermAligned(pieces, labels, w)
  {
    forall d: nat, j: nat | EllipsisAxis(pieces, labels, d, j)
      ensures j < w && labels[|labels| - (|pieces| - d) - j] == Ellipsis(w - 1 - j)
    {
      assert pieces[d] == Dots;
      var v: nat := Covered(pieces, rank);
      var c: nat :| SpreadAt(pieces, w - v, w, labels, c);
      assert c == d;
      assert labels[d + v - 1 - j] == PlacedAt(pieces, w - v, v, d, d + v - 1 - j);
    }
  }

  /**
   * In an accepted plan every ellipsis ends at the last ellipsis axis: `j` places from its right end is `w - 1 - j`.
   */
  lemma EllipsesAlign(equation: string, shapes: seq<Shape>, plan: Plan)
    requires PlanOf(equation, shapes) == Ok(plan)
    ensures exists terms: seq<seq<Piece>>, out: Option<seq<Piece>>, w: nat ::
              Spells(equation, terms, out) && AllAligned(terms, plan.operandLabels, w)
  {
    hide Spells, Laid, TermAligned, PlanOf;
    ParsesExactly(equation, shapes, plan);
    var terms: seq<seq<Piece>>, out: Option<seq<Piece>>, w: nat :|
      Spells(equation, terms, out) && Laid(terms, out, shapes, plan, w);
    LaidAligned(terms, out, shapes, plan, w);
  }

  ghost predicate AllAligned(terms: seq<seq<Piece>>, labels: seq<seq<Label>>, w: nat) {
    |terms| == |labels| && forall i :: 0 <= i < |terms| ==> TermAligned(terms[i], labels[i], w)
  }

  lemma LaidAligned(terms: seq<seq<Piece>>, out: Option<seq<Piece>>, shapes: seq<Shape>, plan: Plan, w: nat)
    requires Laid(terms, out, shapes, plan, w)
    ensures AllAligned(terms, plan.operandLabels, w)
  {
    hide TermAligned, TermLabelledAs, Sized, Chosen, Sorted;
    forall i | 0 <= i < |terms|
      ensures TermAligned(terms[i], plan.operandLabels[i], w)
    {
      LabelledAligned(terms[i], |shapes[i]|, w, plan.operandLabels[i]);
    }
  }

  // Refusals

  /** A wrong number of operands is reported as such, whatever else is wrong; a count out of range only at the end. */
  lemma ErrorsAre(equation: string, shapes: seq<Shape>)
    ensures forall e: nat, n: nat :: PlanOf(equation, shapes) == Err(OperandCount(e, n)) <==>
              Split(Stripped(equation)).Some? && e == |Split(Stripped(equation)).value.inputs| && n == |shapes| != e
    ensures PlanOf(equation, shapes) == Err(ShapeOverflow) <==>
              exists plan :: Reads(equation, shapes, plan) && !Representable(plan)
  {
    hide Reads, Representable;
    if PlanOf(equation, shapes) == Err(ShapeOverflow) {
      ParsedIsLaid(equation, shapes);
      var plan :| Reads(equation, shapes, plan);
      ReadParses(equation, shapes, plan);
    }
    if plan :| Reads(equation, shapes, plan) && !Representable(plan) {
      ReadParses(equation, shapes, plan);
    }
  }

  lemma ReadParses(equation: string, shapes: seq<Shape>, plan: Plan)
    requires Reads(equation, shapes, plan)
    ensures PlanOf(equation, shapes) == if Representable(plan) then Ok(plan) else Err(ShapeOverflow)
  {
    hide Laid, Spells, PlanOf, Representable;
    var terms: seq<seq<Piece>>, out: Option<seq<Piece>>, w: nat :|
      Spells(equation, terms, out) && Laid(terms, out, shapes, plan, w);
    LaidParses(equation, shapes, plan, terms, out, w);
  }
}
