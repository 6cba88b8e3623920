/** `Bar.append`: the chord-grouping insert, as a reducer on `Bar` values. */
module Bars {
  import opened Ast

  predicate NoChords(es: seq<BarElement>)
  {
    forall i :: 0 <= i < |es| ==> !IsChordLike(es[i])
  }

  predicate AllChords(es: seq<BarElement>)
  {
    forall i :: 0 <= i < |es| ==> IsChordLike(es[i])
  }

  /** Every chord-like element is in the chord block, and a block is never empty. */
  predicate Valid(b: Bar)
  {
    match b
    case Open(cs) => NoChords(cs)
    case Grouped(bf, ch, af) => NoChords(bf) && ch != [] && AllChords(ch) && NoChords(af)
  }

  /** What the `ChordBlock` holds (nothing while there is none). */
  function Chords(b: Bar): seq<BarElement>
  {
    match b
    case Open(_) => []
    case Grouped(_, ch, _) => ch
  }

  /** The leaf children of the bar, in order. */
  function Others(b: Bar): seq<BarElement>
  {
    match b
    case Open(cs) => cs
    case Grouped(bf, _, af) => bf + af
  }

  function Leaves(es: seq<BarElement>): (r: seq<BarNode>)
    ensures |r| == |es| && forall i :: 0 <= i < |es| ==> r[i] == Leaf(es[i])
  {
    seq(|es|, i requires 0 <= i < |es| => Leaf(es[i]))
  }

  /** `Bar.children`. */
  function Children(b: Bar): seq<BarNode>
  {
    match b
    case Open(cs) => Leaves(cs)
    case Grouped(bf, ch, af) => Leaves(bf) + [ChordBlock(ch)] + Leaves(af)
  }

  /** A fresh `Bar()`. */
  const EmptyBar: Bar := Open([])

  /**
   * `Bar.append(child)`: a chord-like child goes into the chord block, which
   * is created (and placed in `children`) on the first one; any other child
   * is appended to `children`.
   */
  function Append(b: Bar, e: BarElement): (r: Bar)
    ensures Valid(b) ==> Valid(r)
    ensures IsChordLike(e) ==> Chords(r) == Chords(b) + [e] && Others(r) == Others(b)
    ensures !IsChordLike(e) ==> Others(r) == Others(b) + [e] && Chords(r) == Chords(b)
    ensures b.Grouped? ==> r.Grouped? && r.before == b.before
    ensures b.Open? && IsChordLike(e) ==> r.Grouped? && r.before == b.children
  {
    match b
    case Open(cs) =>
      if IsChordLike(e) then Grouped(cs, [e], []) else Open(cs + [e])
    case Grouped(bf, ch, af) =>
      if IsChordLike(e) then Grouped(bf, ch + [e], af) else Grouped(bf, ch, af + [e])
  }

  /** The bar `b` becomes after `b.append(e)` for each `e` of `es`, in order. */
  function AppendEach(b: Bar, es: seq<BarElement>): Bar
  {
    if es == [] then b else Append(AppendEach(b, es[..|es| - 1]), es[|es| - 1])
  }

  lemma {:induction false} AppendEachConcat(b: Bar, x: seq<BarElement>, y: seq<BarElement>)
    ensures AppendEach(AppendEach(b, x), y) == AppendEach(b, x + y)
  {
    if y != [] {
      var yi := y[..|y| - 1];
      AppendEachConcat(b, x, yi);
      assert (x + y)[..|x + y| - 1] == x + yi;
      assert (x + y)[|x + y| - 1] == y[|y| - 1];
    } else {
      assert x + y == x;
    }
  }

  // ---------------------------------------------- the reference description

  /** The chord-like elements of `es`, in order. */
  function ChordsOf(es: seq<BarElement>): (r: seq<BarElement>)
    ensures AllChords(r)
  {
    if es == [] then []
    else if IsChordLike(es[|es| - 1]) then ChordsOf(es[..|es| - 1]) + [es[|es| - 1]]
    else ChordsOf(es[..|es| - 1])
  }

  /** The other elements of `es`, in order. */
  function OthersOf(es: seq<BarElement>): (r: seq<BarElement>)
    ensures NoChords(r)
  {
    if es == [] then []
    else if !IsChordLike(es[|es| - 1]) then OthersOf(es[..|es| - 1]) + [es[|es| - 1]]
    else OthersOf(es[..|es| - 1])
  }

  /** The index of the first chord-like element of `es`, or `|es|`. */
  function FirstChord(es: seq<BarElement>): (k: nat)
    ensures k <= |es|
    ensures forall j :: 0 <= j < k ==> !IsChordLike(es[j])
    ensures k < |es| ==> IsChordLike(es[k])
  {
    if es == [] then 0
    else if IsChordLike(es[0]) then 0
    else 1 + FirstChord(es[1..])
  }

  /**
   * How a bar built from `es` looks: all chord-likes in one block that sits
   * where the first chord-like came, every other element outside it in order.
   */
  function Grouping(es: seq<BarElement>): Bar
  {
    var k := FirstChord(es);
    if k == |es| then Open(es) else Grouped(es[..k], ChordsOf(es), OthersOf(es[k..]))
  }

  lemma {:induction false} ChordsOfNone(es: seq<BarElement>)
    requires NoChords(es)
    ensures ChordsOf(es) == [] && OthersOf(es) == es
  {
    if es != [] {
      ChordsOfNone(es[..|es| - 1]);
    }
  }

  lemma {:induction false} ChordsOfNonEmpty(es: seq<BarElement>, i: nat)
    requires i < |es| && IsChordLike(es[i])
    ensures ChordsOf(es) != []
  {
    if i < |es| - 1 {
      ChordsOfNonEmpty(es[..|es| - 1], i);
    }
  }

  lemma SliceSnoc<T>(p: seq<T>, e: T, k: nat)
    requires k <= |p|
    ensures (p + [e])[..k] == p[..k] && (p + [e])[k..] == p[k..] + [e]
  {
  }

  lemma FirstChordUnique(es: seq<BarElement>, k: nat)
    requires k <= |es| && (forall j :: 0 <= j < k ==> !IsChordLike(es[j]))
    requires k < |es| ==> IsChordLike(es[k])
    ensures FirstChord(es) == k
  {
  }

  lemma GroupingSnocOpen(p: seq<BarElement>, e: BarElement)
    requires FirstChord(p) == |p|
    ensures Grouping(p + [e]) == Append(Grouping(p), e)
  {
    if IsChordLike(e) {
      OpenThenChord(p, e);
    } else {
      OpenThenOther(p, e);
    }
  }

  /** The first chord-like element opens the block right after the elements so far. */
  lemma OpenThenChord(p: seq<BarElement>, e: BarElement)
    requires FirstChord(p) == |p| && IsChordLike(e)
    ensures Grouping(p + [e]) == Grouped(p, [e], [])
  {
    var es := p + [e];
    assert forall j :: 0 <= j < |p| ==> es[j] == p[j];
    FirstChordUnique(es, |p|);
    assert es[..|p|] == p && es[|p|..] == [e];
    ChordsOfNone(p);
    FiltersSnoc(p, e);
    assert OthersOf([e]) == [] by {
      assert [e][..0] == [];
    }
  }

  lemma OpenThenOther(p: seq<BarElement>, e: BarElement)
    requires FirstChord(p) == |p| && !IsChordLike(e)
    ensures Grouping(p + [e]) == Open(p + [e])
  {
    var es := p + [e];
    assert forall j :: 0 <= j < |p| ==> es[j] == p[j];
    FirstChordUnique(es, |es|);
  }

  lemma FiltersSnoc(s: seq<BarElement>, e: BarElement)
    ensures ChordsOf(s + [e]) == if IsChordLike(e) then ChordsOf(s) + [e] else ChordsOf(s)
    ensures OthersOf(s + [e]) == if IsChordLike(e) then OthersOf(s) else OthersOf(s) + [e]
  {
    assert (s + [e])[..|s|] == s;
  }

  lemma GroupingSnocGrouped(p: seq<BarElement>, e: BarElement)
    requires FirstChord(p) < |p|
    ensures Grouping(p + [e]) == Append(Grouping(p), e)
  {
    var es := p + [e];
    var k := FirstChord(p);
    SliceSnoc(p, e, k);
    FirstChordUnique(es, k);
    FiltersSnoc(p, e);
    FiltersSnoc(p[k..], e);
  }

  lemma GroupingValid(es: seq<BarElement>)
    ensures Valid(Grouping(es))
  {
    var k := FirstChord(es);
    if k < |es| {
      ChordsOfNonEmpty(es, k);
    }
  }

  /** Appending one element at a time yields exactly the grouping of the whole sequence. */
  lemma {:induction false} AppendAllIsGrouping(es: seq<BarElement>)
    ensures AppendEach(EmptyBar, es) == Grouping(es)
    ensures Valid(AppendEach(EmptyBar, es))
  {
    if es != [] {
      var p, e := es[..|es| - 1], es[|es| - 1];
      assert es == p + [e];
      AppendAllIsGrouping(p);
      if FirstChord(p) == |p| {
        GroupingSnocOpen(p, e);
      } else {
        GroupingSnocGrouped(p, e);
      }
    }
    GroupingValid(es);
  }

  /** A bar's children hold at most one chord block. */
  lemma AtMostOneBlock(b: Bar, i: nat, j: nat)
    requires i < j < |Children(b)|
    ensures !(Children(b)[i].ChordBlock? && Children(b)[j].ChordBlock?)
  {
  }
}
