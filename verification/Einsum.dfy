/** Subscript parsing for indexed contractions: text, pieces, and the label extents they must agree on. */
module Einsum {
  import opened Wrappers

  // Subscripts

  datatype Piece = Letter(c: char) | Dots

  predicate IsLetter(c: char) {
    'a' <= c <= 'z' || 'A' <= c <= 'Z'
  }

  function Render(pieces: seq<Piece>): string {
    if |pieces| == 0 then ""
    else (match pieces[0] case Letter(c) => [c] case Dots => "...") + Render(pieces[1..])
  }

  /** Letters only, and at most one ellipsis. */
  ghost predicate Proper(pieces: seq<Piece>) {
    (forall i :: 0 <= i < |pieces| && pieces[i].Letter? ==> IsLetter(pieces[i].c)) &&
    forall i, j :: 0 <= i < j < |pieces| ==> !(pieces[i].Dots? && pieces[j].Dots?)
  }

  predicate StartsDots(text: string) {
    |text| >= 3 && text[0] == '.' && text[1] == '.' && text[2] == '.'
  }

  /** The pieces of a subscript, if it is one. */
  function Pieces(text: string): Option<seq<Piece>> {
    if |text| == 0 then Some([])
    else if StartsDots(text) then Glue([Dots], Pieces(text[3..]))
    else if IsLetter(text[0]) then Glue([Letter(text[0])], Pieces(text[1..]))
    else None
  }

  /** Pieces already read, followed by the rest; a second ellipsis is refused. */
  function Glue(done: seq<Piece>, rest: Option<seq<Piece>>): Option<seq<Piece>> {
    match rest
    case None => None
    case Some(p) => if Dots in done && Dots in p then None else Some(done + p)
  }

  lemma {:induction false} PiecesSound(text: string)
    ensures Pieces(text).Some? ==> Proper(Pieces(text).value) && Render(Pieces(text).value) == text
  {
    if |text| > 0 && Pieces(text).Some? {
      var p := Pieces(text).value;
      if StartsDots(text) {
        PiecesSound(text[3..]);
        assert p[1..] == Pieces(text[3..]).value;
        assert text == "..." + text[3..];
      } else {
        PiecesSound(text[1..]);
        assert p[1..] == Pieces(text[1..]).value;
        assert text == [text[0]] + text[1..];
      }
    }
  }

  lemma {:induction false} PiecesComplete(pieces: seq<Piece>)
    requires Proper(pieces)
    ensures Pieces(Render(pieces)) == Some(pieces)
  {
    if |pieces| > 0 {
      var rest := pieces[1..];
      assert pieces == [pieces[0]] + rest;
      PiecesComplete(rest);
      match pieces[0]
      case Dots =>
        var text := "..." + Render(rest);
        assert text[3..] == Render(rest);
        assert forall i :: 0 <= i < |rest| ==> rest[i] == pieces[i + 1];
      case Letter(c) =>
        var text := [c] + Render(rest);
        assert pieces[0].Letter? && IsLetter(c);
        assert text[0] == c && text[1..] == Render(rest);
    }
  }

  /** A text is a subscript exactly when it renders proper pieces, and then in one way only. */
  lemma SubscriptIffRendered(text: string, pieces: seq<Piece>)
    ensures Pieces(text) == Some(pieces) <==> Proper(pieces) && Render(pieces) == text
  {
    PiecesSound(text);
    if Proper(pieces) && Render(pieces) == text {
      PiecesComplete(pieces);
    }
  }

  lemma GlueMore(done: seq<Piece>, next: Piece, rest: Option<seq<Piece>>)
    requires next.Dots? ==> Dots !in done
    ensures Glue(done, Glue([next], rest)) == Glue(done + [next], rest)
  {
    if rest.Some? {
      assert Dots in done + [next] <==> Dots in done || next.Dots?;
      assert Dots in [next] + rest.value <==> next.Dots? || Dots in rest.value;
      assert done + ([next] + rest.value) == done + [next] + rest.value;
    }
  }

  lemma GlueTwice(done: seq<Piece>, rest: Option<seq<Piece>>)
    requires Dots in done
    ensures Glue(done, Glue([Dots], rest)) == None
  {
    if rest.Some? {
      assert ([Dots] + rest.value)[0] == Dots;
    }
  }

  /** The scanning loop reads exactly the pieces of its text. */
  method ParseSubscript(text: string) returns (r: Option<seq<Piece>>)
    ensures r == Pieces(text)
  {
    hide Pieces, Glue;
    var pieces: seq<Piece> := [];
    var ellipsis := false;
    var i := 0;
    assert text[0..] == text;
    GlueNothing(Pieces(text));
    while i < |text|
      invariant i <= |text| && (ellipsis <==> Dots in pieces)
      invariant Pieces(text) == Glue(pieces, Pieces(text[i..]))
    {
      PiecesUnfold(text[i..]);
      if StartsDots(text[i..]) {
        assert text[i..][3..] == text[i + 3..];
        if ellipsis {
          GlueTwice(pieces, Pieces(text[i + 3..]));
          return None;
        }
        GlueMore(pieces, Dots, Pieces(text[i + 3..]));
        ellipsis := true;
        pieces := pieces + [Dots];
        i := i + 3;
      } else {
        assert text[i..][1..] == text[i + 1..];
        if !IsLetter(text[i]) {
          GlueNone(pieces);
          return None;
        }
        GlueMore(pieces, Letter(text[i]), Pieces(text[i + 1..]));
        pieces := pieces + [Letter(text[i])];
        i := i + 1;
      }
    }
    PiecesUnfold(text[i..]);
    GlueEnd(pieces);
    return Some(pieces);
  }

  lemma PiecesUnfold(text: string)
    ensures Pieces(text) ==
            if |text| == 0 then Some([])
            else if StartsDots(text) then Glue([Dots], Pieces(text[3..]))
            else if IsLetter(text[0]) then Glue([Letter(text[0])], Pieces(text[1..]))
            else None
  {
  }

  lemma GlueNothing(rest: Option<seq<Piece>>)
    ensures Glue([], rest) == rest
  {
    if rest.Some? {
      assert [] + rest.value == rest.value;
    }
  }

  lemma GlueNone(done: seq<Piece>)
    ensures Glue(done, None) == None
  {
  }

  lemma GlueEnd(done: seq<Piece>)
    ensures Glue(done, Some([])) == Some(done)
  {
    assert done + [] == done;
  }

  // Joining the extents of one label

  /** One more length of a label met with the extent so far. */
  function JoinStep(extent: nat, length: nat): Option<nat> {
    if extent == length || extent == 1 then Some(if extent > length then extent else length)
    else if length == 1 then Some(extent)
    else None
  }

  /** The lengths of a label folded in operand order. */
  function Joined(lengths: seq<nat>): Option<nat>
    requires |lengths| > 0
  {
    var n := |lengths| - 1;
    if n == 0 then Some(lengths[0])
    else
      match Joined(lengths[..n])
      case None => None
      case Some(e) => JoinStep(e, lengths[n])
  }

  /** The extent the plan records: a label with an empty axis is empty. */
  function ExtentOf(lengths: seq<nat>): Option<nat>
    requires |lengths| > 0
  {
    if Joined(lengths).Some? && 0 in lengths then Some(0) else Joined(lengths)
  }

  ghost predicate Big(x: nat) {
    x >= 2
  }

  /** All lengths above one are the same. */
  ghost predicate OneBig(lengths: seq<nat>) {
    forall x, y :: x in lengths && y in lengths && Big(x) && Big(y) ==> x == y
  }

  ghost predicate HasBig(lengths: seq<nat>) {
    exists x :: x in lengths && Big(x)
  }

  /** Every empty length comes before every length above one. */
  ghost predicate EmptyFirst(lengths: seq<nat>) {
    forall i, j :: 0 <= i < |lengths| && 0 <= j < |lengths| && Big(lengths[i]) && lengths[j] == 0 ==> j < i
  }

  /**
   * What the fold holds after accepting some lengths: the common big length, or zero if it started with one, or one.
   */
  ghost predicate JoinState(lengths: seq<nat>, extent: nat)
    requires |lengths| > 0
  {
    (HasBig(lengths) ==> extent in lengths && Big(extent)) &&
      (!HasBig(lengths) ==> extent == if lengths[0] == 0 then 0 else 1)
  }

  /** When a fold is accepted. */
  ghost predicate Joinable(lengths: seq<nat>)
    requires |lengths| > 0
  {
    OneBig(lengths) && (!HasBig(lengths) || 0 !in lengths || (lengths[0] == 1 && EmptyFirst(lengths)))
  }

  lemma JoinPush(lengths: seq<nat>, x: nat, e: nat)
    requires |lengths| > 0 && Joinable(lengths) && JoinState(lengths, e)
    ensures var more := lengths + [x];
            (JoinStep(e, x).Some? <==> Joinable(more)) &&
              (JoinStep(e, x).Some? ==> JoinState(more, JoinStep(e, x).value))
  {
    var more := lengths + [x];
    assert forall y :: y in more <==> y in lengths || y == x;
    assert more[0] == lengths[0] && more[|lengths|] == x;
    assert forall i :: 0 <= i < |lengths| ==> more[i] == lengths[i];
    assert HasBig(more) <==> HasBig(lengths) || Big(x);
    if HasBig(lengths) {
      PushAfterBig(lengths, x, e);
    } else if Big(x) {
      assert forall i :: 0 <= i < |lengths| ==> lengths[i] in lengths && !Big(lengths[i]);
      assert EmptyFirst(more);
      assert OneBig(more);
      assert 0 in more ==> 0 in lengths;
      assert lengths[0] in lengths;
      if e == 0 {
        assert more[0] == 0 && 0 in more;
      }
    }
  }

  lemma PushAfterBig(lengths: seq<nat>, x: nat, e: nat)
    requires |lengths| > 0 && Joinable(lengths) && JoinState(lengths, e) && HasBig(lengths)
    ensures var more := lengths + [x];
            (JoinStep(e, x).Some? <==> Joinable(more)) &&
              (JoinStep(e, x).Some? ==> JoinState(more, JoinStep(e, x).value))
  {
    var more := lengths + [x];
    assert forall y :: y in more <==> y in lengths || y == x;
    assert more[0] == lengths[0] && more[|lengths|] == x;
    assert forall i :: 0 <= i < |lengths| ==> more[i] == lengths[i];
    assert e in more && HasBig(more);
    var i :| 0 <= i < |lengths| && lengths[i] == e;
    if x == 0 {
      assert 0 in more;
      assert Big(more[i]) && more[|lengths|] == 0;
    } else if Big(x) && x != e {
      assert x in more;
    } else {
      assert OneBig(more);
      assert 0 in more <==> 0 in lengths;
      assert EmptyFirst(lengths) ==> EmptyFirst(more);
    }
  }

  lemma {:induction false} JoinedIff(lengths: seq<nat>)
    requires |lengths| > 0
    ensures Joined(lengths).Some? <==> Joinable(lengths)
    ensures Joined(lengths).Some? ==> JoinState(lengths, Joined(lengths).value)
  {
    var n := |lengths| - 1;
    if n > 0 {
      var less := lengths[..n];
      JoinedIff(less);
      assert lengths == less + [lengths[n]];
      if Joined(less).Some? {
        JoinPush(less, lengths[n], Joined(less).value);
      } else {
        NotJoinableMore(less, lengths[n]);
      }
    } else {
      assert lengths[0] in lengths;
    }
  }

  lemma NotJoinableMore(lengths: seq<nat>, x: nat)
    requires |lengths| > 0 && !Joinable(lengths)
    ensures !Joinable(lengths + [x])
  {
    var more := lengths + [x];
    assert forall y :: y in lengths ==> y in more;
    assert forall i :: 0 <= i < |lengths| ==> more[i] == lengths[i];
    if OneBig(lengths) && lengths[0] == 1 {
      var i, j :| 0 <= i < |lengths| && 0 <= j < |lengths| && Big(lengths[i]) && lengths[j] == 0 && j >= i;
      assert Big(more[i]) && more[j] == 0;
    }
  }

  /**
   * Without empty axes a label is accepted exactly when its lengths are one or a common value, and its extent is their
   * maximum.
   */
  lemma PositiveExtent(lengths: seq<nat>)
    requires |lengths| > 0 && 0 !in lengths
    ensures Joined(lengths).Some? <==> OneBig(lengths)
    ensures Joined(lengths).Some? ==>
              ExtentOf(lengths) == Joined(lengths) && Joined(lengths).value in lengths &&
              forall x :: x in lengths ==> x <= Joined(lengths).value
  {
    JoinedIff(lengths);
    assert lengths[0] in lengths;
    if Joined(lengths).Some? && !HasBig(lengths) {
      assert forall x :: x in lengths ==> x == 1;
    }
  }

  ghost predicate SameMembers(a: seq<nat>, b: seq<nat>) {
    forall x :: x in a <==> x in b
  }

  /** Whether the order of the operands can matter: an empty, a unit and a common larger length together. */
  ghost predicate Delicate(lengths: seq<nat>) {
    0 in lengths && 1 in lengths && HasBig(lengths) && OneBig(lengths)
  }

  /** Unless the lengths are delicate, any order of them is accepted or refused alike, with the same extent. */
  lemma OrderIrrelevant(a: seq<nat>, b: seq<nat>)
    requires |a| > 0 && |b| > 0 && SameMembers(a, b) && !Delicate(a)
    ensures ExtentOf(a) == ExtentOf(b)
  {
    JoinedIff(a);
    JoinedIff(b);
    assert a[0] in a && b[0] in b;
    assert HasBig(a) <==> HasBig(b);
    assert OneBig(a) <==> OneBig(b);
    if Joinable(a) && 0 !in a && !HasBig(a) {
      assert a[0] == 1 && b[0] == 1;
    }
  }

  /** The lengths equal to `v`, or above one, in order. */
  function Chosen(lengths: seq<nat>, v: nat): (r: seq<nat>)
    ensures forall x :: x in r <==> x in lengths && (if v >= 2 then x >= 2 else x == v)
  {
    if |lengths| == 0 then []
    else
      var n := |lengths| - 1;
      Chosen(lengths[..n], v) + if (if v >= 2 then lengths[n] >= 2 else lengths[n] == v) then [lengths[n]] else []
  }

  lemma PushCount(a: seq<nat>, y: nat, x: nat)
    ensures multiset(a + [y])[x] == multiset(a)[x] + if x == y then 1 else 0
  {
  }

  function Occurs(a: seq<nat>, x: nat): nat {
    if |a| == 0 then 0 else Occurs(a[..|a| - 1], x) + if a[|a| - 1] == x then 1 else 0
  }

  lemma {:induction false} OccursIs(a: seq<nat>, x: nat)
    ensures multiset(a)[x] == Occurs(a, x)
  {
    if |a| > 0 {
      OccursIs(a[..|a| - 1], x);
      assert a == a[..|a| - 1] + [a[|a| - 1]];
      PushCount(a[..|a| - 1], a[|a| - 1], x);
    }
  }

  lemma OccursPush(a: seq<nat>, y: nat, x: nat)
    ensures Occurs(a + [y], x) == Occurs(a, x) + if x == y then 1 else 0
  {
    assert (a + [y])[..|a|] == a;
  }

  lemma ChosenNext(lengths: seq<nat>, v: nat, x: nat)
    requires |lengths| > 0
    ensures var n := |lengths| - 1;
            var taken := if v >= 2 then lengths[n] >= 2 else lengths[n] == v;
            Occurs(Chosen(lengths, v), x) ==
            Occurs(Chosen(lengths[..n], v), x) + if taken && lengths[n] == x then 1 else 0
  {
    hide Occurs;
    var n := |lengths| - 1;
    OccursPush(Chosen(lengths[..n], v), lengths[n], x);
    assert Chosen(lengths[..n], v) + [] == Chosen(lengths[..n], v);
  }

  lemma {:induction false} ChosenCount(lengths: seq<nat>, x: nat)
    ensures Occurs(Chosen(lengths, 0), x) + Occurs(Chosen(lengths, 1), x) + Occurs(Chosen(lengths, 2), x) ==
              Occurs(lengths, x)
  {
    if |lengths| > 0 {
      ChosenCount(lengths[..|lengths| - 1], x);
      ChosenNext(lengths, 0, x);
      ChosenNext(lengths, 1, x);
      ChosenNext(lengths, 2, x);
      hide Chosen;
    }
  }

  lemma ChosenParts(lengths: seq<nat>)
    ensures multiset(Chosen(lengths, 0)) + multiset(Chosen(lengths, 1)) + multiset(Chosen(lengths, 2)) ==
              multiset(lengths)
  {
    hide Chosen, Occurs;
    var all := multiset(Chosen(lengths, 0)) + multiset(Chosen(lengths, 1)) + multiset(Chosen(lengths, 2));
    forall x: nat
      ensures all[x] == multiset(lengths)[x]
    {
      ChosenCount(lengths, x);
      OccursIs(lengths, x);
      OccursIs(Chosen(lengths, 0), x);
      OccursIs(Chosen(lengths, 1), x);
      OccursIs(Chosen(lengths, 2), x);
    }
  }

  /** Delicate lengths really are order-sensitive: one arrangement of them is accepted and another is refused. */
  lemma OrderMatters(lengths: seq<nat>) returns (yes: seq<nat>, no: seq<nat>)
    requires Delicate(lengths)
    ensures multiset(yes) == multiset(lengths) == multiset(no) && |yes| > 0 && |no| > 0
    ensures ExtentOf(yes) == Some(0) && ExtentOf(no) == None
  {
    hide Chosen, Delicate, EmptyFirst, ExtentOf;
    var ones, zeros, bigs := Chosen(lengths, 1), Chosen(lengths, 0), Chosen(lengths, 2);
    ChosenParts(lengths);
    PartsMembers(lengths, ones, zeros, bigs);
    PartsMultiset(lengths, ones, zeros, bigs);
    Arranged(ones, zeros, bigs);
    yes, no := ones + zeros + bigs, zeros + bigs + ones;
    Decide(lengths, yes, no);
  }

  lemma PartsMultiset(lengths: seq<nat>, ones: seq<nat>, zeros: seq<nat>, bigs: seq<nat>)
    requires multiset(zeros) + multiset(ones) + multiset(bigs) == multiset(lengths)
    ensures multiset(ones + zeros + bigs) == multiset(lengths) == multiset(zeros + bigs + ones)
  {
  }

  lemma PartsMembers(lengths: seq<nat>, ones: seq<nat>, zeros: seq<nat>, bigs: seq<nat>)
    requires Delicate(lengths) && ones == Chosen(lengths, 1) && zeros == Chosen(lengths, 0)
    requires bigs == Chosen(lengths, 2)
    ensures |ones| > 0 && |zeros| > 0 && ones[0] == 1 && zeros[0] == 0
    ensures forall x :: x in ones + zeros + bigs <==> x in lengths
    ensures forall x :: x in zeros + bigs + ones <==> x in lengths
  {
    hide Chosen;
    assert 0 in zeros && 1 in ones;
    assert ones[0] in ones && zeros[0] in zeros;
  }

  lemma Decide(lengths: seq<nat>, yes: seq<nat>, no: seq<nat>)
    requires Delicate(lengths) && |yes| > 0 && |no| > 0 && yes[0] == 1 && no[0] == 0 && EmptyFirst(yes)
    requires (forall x :: x in yes <==> x in lengths) && forall x :: x in no <==> x in lengths
    ensures ExtentOf(yes) == Some(0) && ExtentOf(no) == None
  {
    hide EmptyFirst, Joined;
    JoinedIff(yes);
    JoinedIff(no);
    assert HasBig(no) && OneBig(yes);
  }

  lemma Arranged(ones: seq<nat>, zeros: seq<nat>, bigs: seq<nat>)
    requires (forall x :: x in ones ==> x == 1) && (forall x :: x in zeros ==> x == 0) &&
               forall x :: x in bigs ==> x >= 2
    ensures EmptyFirst(ones + zeros + bigs)
  {
    var all := ones + zeros + bigs;
    var m, n := |ones|, |ones| + |zeros|;
    forall i | 0 <= i < n
      ensures !Big(all[i])
    {
      if i < m {
        assert all[i] == ones[i] && ones[i] in ones;
      } else {
        assert all[i] == zeros[i - m] && zeros[i - m] in zeros;
      }
    }
    forall j | n <= j < |all|
      ensures all[j] != 0
    {
      assert all[j] == bigs[j - n] && bigs[j - n] in bigs;
    }
  }
}
